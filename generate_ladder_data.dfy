/**
 * The ladder-data generator of `generate_ladder_data.py`: every snapshot under `history/`
 * and every dated pool file under `today/` is loaded into one map `date -> kind -> records`,
 * later files overwriting earlier ones, and the map is emitted date by date, newest first,
 * as the body of a JavaScript object literal.
 */
module LadderData {
  import opened Common
  import opened Snapshots
  import HistoryFetch

  // ---------------------------------------------------------------- load_json_file

  /**
   * `load_json_file`: `[]` for a missing file; the `data` member of an object that has one;
   * a list as it is; `[]` for any other document. A file that does not parse makes it raise
   * (`None`), and with it the whole generation.
   */
  function LoadJsonFile(file: Option<FileState>): (r: Option<Json>)
    ensures file.None? ==> r == Some(JArr([]))
    ensures r.None? <==> file == Some(Unparsable)
    ensures file.Some? && file.value.Parsed? ==>
      var doc := file.value.doc;
      r == Some(if doc.JObj? && "data" in doc.fields then doc.fields["data"] else if doc.JArr? then doc else JArr([]))
  {
    match file
    case None => Some(JArr([]))
    case Some(Unparsable) => None
    case Some(Parsed(doc)) =>
      if doc.JObj? && "data" in doc.fields then Some(doc.fields["data"])
      else if doc.JArr? then Some(doc)
      else Some(JArr([]))
  }

  /** A snapshot written by the fetchers loads back as exactly its records. */
  lemma LoadSnapshot(date: string, data: seq<Json>)
    ensures LoadJsonFile(Some(Parsed(SnapshotDoc(date, data)))) == Some(JArr(data))
  {
  }

  // ---------------------------------------------------------------- directories and entries

  /** A directory: its listing, in `os.listdir` order, with what each file parses to. */
  type Dir = seq<(string, FileState)>

  /** The three `history/<kind>/` directories; a directory that does not exist is empty. */
  datatype HistoryDirs = HistoryDirs(limitUp: Dir, limitDown: Dir, explode: Dir)

  function DirOf(h: HistoryDirs, c: Category): Dir
  {
    match c
    case LimitUp => h.limitUp
    case LimitDown => h.limitDown
    case Explode => h.explode
  }

  /** One file destined for `merged_data[date][kind]`. */
  datatype Entry = Entry(date: string, kind: string, state: FileState)

  /** The entries of one history directory: every `.json` name, its date being the name without `.json`. */
  function HistoryDirEntries(dir: Dir, kind: string): seq<Entry>
    decreases |dir|
  {
    if dir == [] then [] else HistoryDirEntries(dir[..|dir| - 1], kind) + HistoryEntryOf(dir[|dir| - 1], kind)
  }

  function HistoryEntryOf(file: (string, FileState), kind: string): seq<Entry>
  {
    if EndsWith(file.0, ".json") then [Entry(ReplaceAll(file.0, ".json", ""), kind, file.1)] else []
  }

  /** The history entries of the categories `cats`, in that order. */
  function HistoryEntries(h: HistoryDirs, cats: seq<Category>): seq<Entry>
    decreases |cats|
  {
    if cats == [] then []
    else
      var c := cats[|cats| - 1];
      HistoryEntries(h, cats[..|cats| - 1]) + HistoryDirEntries(DirOf(h, c), DirName(c))
  }

  /**
   * How a `today/` file name is read: without `.json`, split on `_`; with three or more
   * parts the kind is the first two joined and the date the rest joined, otherwise the file
   * is skipped.
   */
  function ParseTodayName(name: string): Option<(string, string)>
  {
    var parts := Split(ReplaceAll(name, ".json", ""), '_');
    if |parts| >= 3 then Some((Join(parts[..2], '_'), Join(parts[2..], '_'))) else None
  }

  /** A kind read from a `today` name always holds an underscore, so no `today` file can ever supply `explode`. */
  lemma TodayKindHasUnderscore(name: string)
    requires ParseTodayName(name).Some?
    ensures '_' in ParseTodayName(name).value.0 && ParseTodayName(name).value.0 != DirName(Explode)
  {
    var parts := Split(ReplaceAll(name, ".json", ""), '_');
    var two := parts[..2];
    assert two[1..] == [parts[1]];
    assert Join(two, '_') == parts[0] + ['_'] + parts[1];
    assert (parts[0] + ['_'] + parts[1])[|parts[0]|] == '_';
    assert '_' !in DirName(Explode);
  }

  /** The kind and the date read from a `today` name, joined by `_`, give back the name without `.json`. */
  lemma TodayNameRebuildsStem(name: string)
    requires ParseTodayName(name).Some?
    ensures ParseTodayName(name).value.0 + "_" + ParseTodayName(name).value.1 == ReplaceAll(name, ".json", "")
  {
    var stem := ReplaceAll(name, ".json", "");
    var parts := Split(stem, '_');
    assert parts == parts[..2] + parts[2..];
    JoinAppend(parts[..2], parts[2..], '_');
    JoinSplit(stem, '_');
  }

  /** The entries of the `today/` directory: every `.json` name that parses. */
  function TodayEntries(dir: Dir): seq<Entry>
    decreases |dir|
  {
    if dir == [] then [] else TodayEntries(dir[..|dir| - 1]) + TodayEntryOf(dir[|dir| - 1])
  }

  function TodayEntryOf(file: (string, FileState)): seq<Entry>
  {
    if EndsWith(file.0, ".json") && ParseTodayName(file.0).Some? then
      [Entry(ParseTodayName(file.0).value.1, ParseTodayName(file.0).value.0, file.1)]
    else []
  }

  /** A name `<a>_<b>_<date>.json` with three dot- and underscore-free fields reads back as kind `<a>_<b>` and its date. */
  lemma ParseThreeFields(a: string, b: string, date: string)
    requires '.' !in a && '.' !in b && '.' !in date
    requires '_' !in a && '_' !in b && '_' !in date
    ensures ParseTodayName(a + "_" + b + "_" + date + ".json") == Some((a + "_" + b, date))
  {
    var stem := a + "_" + b + "_" + date;
    assert '.' !in stem;
    StripSuffix(stem, ".json");
    assert stem == a + ['_'] + (b + ['_'] + date);
    SplitAfterField(a, b + ['_'] + date, '_');
    SplitAfterField(b, date, '_');
    SplitFree(date, '_');
    var parts := Split(stem, '_');
    assert parts == [a, b, date];
    assert a + "_" + b + "_" + date + ".json" == stem + ".json";
    assert ReplaceAll(a + "_" + b + "_" + date + ".json", ".json", "") == stem;
    assert parts[..2] == [a, b] && parts[2..] == [date];
    assert [a, b][1..] == [b];
    assert Join([a, b], '_') == a + ['_'] + Join([b], '_');
    assert Join(parts[..2], '_') == a + "_" + b;
    assert Join(parts[2..], '_') == date;
  }

  /** The names `fetch_single_date` saves the two limit pools under are read back as their kind and date. */
  lemma TodayLimitNamesParse(c: Category, date: string)
    requires c != Explode && '.' !in date && '_' !in date
    ensures ParseTodayName(HistoryFetch.TodayFileName(c, date)) == Some((DirName(c), date))
  {
    if c == LimitUp {
      ParseThreeFields("limit", "up", date);
      assert DirName(c) == "limit" + "_" + "up";
      assert HistoryFetch.TodayFileName(c, date) == "limit" + "_" + "up" + "_" + date + ".json";
    } else {
      ParseThreeFields("limit", "down", date);
      assert c == LimitDown && DirName(c) == "limit" + "_" + "down";
      assert HistoryFetch.TodayFileName(c, date) == "limit" + "_" + "down" + "_" + date + ".json";
    }
  }

  /** The name the explode pool is saved under has only two parts and is never loaded. */
  lemma TodayExplodeNameSkipped(date: string)
    requires '.' !in date && '_' !in date
    ensures ParseTodayName(HistoryFetch.TodayFileName(Explode, date)).None?
  {
    var stem := "explode_" + date;
    assert HistoryFetch.TodayFileName(Explode, date) == stem + ".json";
    StripSuffix(stem, ".json");
    assert stem == "explode" + ['_'] + date;
    SplitAfterField("explode", date, '_');
    SplitFree(date, '_');
  }

  // ---------------------------------------------------------------- the merge map

  /** `merged_data`: date -> kind -> loaded records. */
  type Ladder = map<string, map<string, Json>>

  /** `merged_data[date][kind] = value`, creating the inner map when the date is new. */
  function Put(m: Ladder, date: string, kind: string, value: Json): Ladder
  {
    m[date := (if date in m then m[date] else map[])[kind := value]]
  }

  /** `Put` sets one cell, keeps every other, and adds at most its date. */
  lemma PutLookup(m: Ladder, date: string, kind: string, value: Json, d: string, k: string)
    ensures var r := Put(m, date, kind, value);
      date in r && kind in r[date] && r[date][kind] == value
      && ((d, k) != (date, kind) ==>
        (d in r && k in r[d]) == (d in m && k in m[d]) && (d in m && k in m[d] ==> r[d][k] == m[d][k]))
      && r.Keys == m.Keys + {date}
  {
  }

  /** The map after loading `es` in order, or `None` when a file fails to parse. */
  function ApplyAll(es: seq<Entry>): Option<Ladder>
    decreases |es|
  {
    if es == [] then Some(map[])
    else
      match ApplyAll(es[..|es| - 1])
      case None => None
      case Some(m) =>
        var e := es[|es| - 1];
        match LoadJsonFile(Some(e.state))
        case None => None
        case Some(v) => Some(Put(m, e.date, e.kind, v))
  }

  lemma {:induction false} ApplyAllFails(a: seq<Entry>, b: seq<Entry>)
    requires ApplyAll(a).None?
    ensures ApplyAll(a + b).None?
    decreases |b|
  {
    if b != [] {
      ApplyAllFails(a, b[..|b| - 1]);
      var es := a + b;
      assert es[..|es| - 1] == a + b[..|b| - 1];
      assert ApplyAll(es[..|es| - 1]).None?;
    } else {
      assert a + b == a;
    }
  }

  /** The position of the last entry of `es` for `date` and `kind`, or -1. */
  function LastFor(es: seq<Entry>, date: string, kind: string): (r: int)
    ensures -1 <= r < |es|
    ensures r >= 0 ==> es[r].date == date && es[r].kind == kind
    ensures forall j :: r < j < |es| ==> (es[j].date, es[j].kind) != (date, kind)
    decreases |es|
  {
    if es == [] then -1
    else if es[|es| - 1].date == date && es[|es| - 1].kind == kind then |es| - 1
    else LastFor(es[..|es| - 1], date, kind)
  }

  /**
   * After a successful load, `merged[date][kind]` exists exactly when some entry is for that
   * date and kind, and holds what the last such entry loaded: a later file overwrites an earlier one.
   */
  lemma {:induction false} LadderLookup(es: seq<Entry>, date: string, kind: string)
    requires ApplyAll(es).Some?
    ensures var m := ApplyAll(es).value; var r := LastFor(es, date, kind);
      (date in m && kind in m[date] <==> r >= 0)
      && (r >= 0 ==> LoadJsonFile(Some(es[r].state)).Some? && m[date][kind] == LoadJsonFile(Some(es[r].state)).value)
    decreases |es|
  {
    if es != [] {
      var init := es[..|es| - 1];
      LadderLookup(init, date, kind);
      var e := es[|es| - 1];
      PutLookup(ApplyAll(init).value, e.date, e.kind, LoadJsonFile(Some(e.state)).value, date, kind);
      var r := LastFor(init, date, kind);
      if r >= 0 {
        assert es[r] == init[r];
      }
    }
  }

  /** The dates of the map are exactly the dates of the entries. */
  lemma {:induction false} LadderDates(es: seq<Entry>)
    requires ApplyAll(es).Some?
    ensures forall d :: d in ApplyAll(es).value <==> exists i :: 0 <= i < |es| && es[i].date == d
    decreases |es|
  {
    if es != [] {
      var init := es[..|es| - 1];
      LadderDates(init);
      var e := es[|es| - 1];
      PutLookup(ApplyAll(init).value, e.date, e.kind, LoadJsonFile(Some(e.state)).value, e.date, e.kind);
      assert forall i :: 0 <= i < |init| ==> init[i] == es[i];
    }
  }

  lemma {:induction false} LastForAppend(a: seq<Entry>, b: seq<Entry>, date: string, kind: string)
    requires LastFor(b, date, kind) >= 0
    ensures LastFor(a + b, date, kind) == |a| + LastFor(b, date, kind)
    decreases |b|
  {
    var ab := a + b;
    assert ab[..|ab| - 1] == a + b[..|b| - 1];
    if !(b[|b| - 1].date == date && b[|b| - 1].kind == kind) {
      LastForAppend(a, b[..|b| - 1], date, kind);
    }
  }

  /** A `today` file overwrites the history entry of the same date and kind. */
  lemma TodayOverwrites(h: HistoryDirs, today: Dir, date: string, kind: string)
    requires ApplyAll(HistoryEntries(h, Categories) + TodayEntries(today)).Some?
    requires LastFor(TodayEntries(today), date, kind) >= 0
    ensures var ts := TodayEntries(today); var m := ApplyAll(HistoryEntries(h, Categories) + ts).value;
      date in m && kind in m[date]
      && LoadJsonFile(Some(ts[LastFor(ts, date, kind)].state)) == Some(m[date][kind])
  {
    LaterOverwrites(HistoryEntries(h, Categories), TodayEntries(today), date, kind);
  }

  /** An entry of the later part of a load overwrites every earlier one of the same date and kind. */
  lemma LaterOverwrites(hs: seq<Entry>, ts: seq<Entry>, date: string, kind: string)
    requires ApplyAll(hs + ts).Some? && LastFor(ts, date, kind) >= 0
    ensures var m := ApplyAll(hs + ts).value;
      date in m && kind in m[date]
      && LoadJsonFile(Some(ts[LastFor(ts, date, kind)].state)) == Some(m[date][kind])
  {
    LastForAppend(hs, ts, date, kind);
    LadderLookup(hs + ts, date, kind);
    assert (hs + ts)[|hs| + LastFor(ts, date, kind)] == ts[LastFor(ts, date, kind)];
  }

  // ---------------------------------------------------------------- generate_javascript_data, the merge

  /** One step of `ApplyAll`: the entry appended last is loaded into the map of the ones before it. */
  lemma ApplyAllSnoc(es: seq<Entry>, e: Entry)
    ensures ApplyAll(es + [e]) ==
      if ApplyAll(es).None? || LoadJsonFile(Some(e.state)).None? then None
      else Some(Put(ApplyAll(es).value, e.date, e.kind, LoadJsonFile(Some(e.state)).value))
  {
    assert (es + [e])[..|es + [e]| - 1] == es;
  }

  /** The entries of the first `j + 1` files of a history directory. */
  lemma HistoryDirStep(dir: Dir, j: nat, kind: string)
    requires j < |dir|
    ensures HistoryDirEntries(dir[..j + 1], kind) == HistoryDirEntries(dir[..j], kind) + HistoryEntryOf(dir[j], kind)
  {
    assert dir[..j + 1][..j] == dir[..j];
  }

  /** The same step, after the entries already loaded. */
  lemma DoneDirStep(done: seq<Entry>, dir: Dir, j: nat, kind: string)
    requires j < |dir|
    ensures done + HistoryDirEntries(dir[..j + 1], kind) == (done + HistoryDirEntries(dir[..j], kind)) + HistoryEntryOf(dir[j], kind)
  {
    HistoryDirStep(dir, j, kind);
  }

  /** Loading the `j`-th file of a history directory into the map of the files before it. */
  lemma ScanDirStep(done: seq<Entry>, dir: Dir, j: nat, kind: string, m: Ladder)
    requires j < |dir| && ApplyAll(done + HistoryDirEntries(dir[..j], kind)) == Some(m)
    ensures var name, state := dir[j].0, dir[j].1;
      ApplyAll(done + HistoryDirEntries(dir[..j + 1], kind)) ==
        if !EndsWith(name, ".json") then Some(m)
        else if LoadJsonFile(Some(state)).None? then None
        else Some(Put(m, ReplaceAll(name, ".json", ""), kind, LoadJsonFile(Some(state)).value))
  {
    var before := done + HistoryDirEntries(dir[..j], kind);
    DoneDirStep(done, dir, j, kind);
    if EndsWith(dir[j].0, ".json") {
      ApplyAllSnoc(before, Entry(ReplaceAll(dir[j].0, ".json", ""), kind, dir[j].1));
    } else {
      assert before + HistoryEntryOf(dir[j], kind) == before;
    }
  }

  /** Once the first `k` files of a directory fail to load, the whole directory does. */
  lemma {:induction false} ScanDirFails(done: seq<Entry>, dir: Dir, k: nat, kind: string)
    requires k <= |dir| && ApplyAll(done + HistoryDirEntries(dir[..k], kind)).None?
    ensures ApplyAll(done + HistoryDirEntries(dir, kind)).None?
    decreases |dir| - k
  {
    if k == |dir| {
      assert dir[..k] == dir;
    } else {
      var before := done + HistoryDirEntries(dir[..k], kind);
      DoneDirStep(done, dir, k, kind);
      ApplyAllFails(before, HistoryEntryOf(dir[k], kind));
      ScanDirFails(done, dir, k + 1, kind);
    }
  }

  /** The scan of one `history/<kind>/` directory, loading each `.json` file into `merged`. */
  method ScanHistoryDir(merged: Ladder, ghost done: seq<Entry>, dir: Dir, kind: string) returns (r: Option<Ladder>)
    requires ApplyAll(done) == Some(merged)
    ensures r == ApplyAll(done + HistoryDirEntries(dir, kind))
  {
    var m := merged;
    assert dir[..0] == [];
    assert done + HistoryDirEntries(dir[..0], kind) == done;
    for j := 0 to |dir|
      invariant ApplyAll(done + HistoryDirEntries(dir[..j], kind)) == Some(m)
    {
      ScanDirStep(done, dir, j, kind, m);
      var filename, state := dir[j].0, dir[j].1;
      if EndsWith(filename, ".json") {
        var dateStr := ReplaceAll(filename, ".json", "");
        var loaded := LoadJsonFile(Some(state));
        if loaded.None? {
          ScanDirFails(done, dir, j + 1, kind);
          return None;
        }
        m := Put(m, dateStr, kind, loaded.value);
      }
    }
    assert dir[..|dir|] == dir;
    r := Some(m);
  }

  /** The entries of the first `j + 1` files of `today/`. */
  lemma TodayStep(today: Dir, j: nat)
    requires j < |today|
    ensures TodayEntries(today[..j + 1]) == TodayEntries(today[..j]) + TodayEntryOf(today[j])
  {
    assert today[..j + 1][..j] == today[..j];
  }

  /** The same step, after the entries already loaded. */
  lemma DoneTodayStep(done: seq<Entry>, today: Dir, j: nat)
    requires j < |today|
    ensures done + TodayEntries(today[..j + 1]) == (done + TodayEntries(today[..j])) + TodayEntryOf(today[j])
  {
    TodayStep(today, j);
  }

  /** Loading the `j`-th file of `today/` into the map of the files before it. */
  lemma ScanTodayStep(done: seq<Entry>, today: Dir, j: nat, m: Ladder)
    requires j < |today| && ApplyAll(done + TodayEntries(today[..j])) == Some(m)
    ensures var name, state := today[j].0, today[j].1;
      var parsed := if EndsWith(name, ".json") then ParseTodayName(name) else None;
      ApplyAll(done + TodayEntries(today[..j + 1])) ==
        if parsed.None? then Some(m)
        else if LoadJsonFile(Some(state)).None? then None
        else Some(Put(m, parsed.value.1, parsed.value.0, LoadJsonFile(Some(state)).value))
  {
    var before := done + TodayEntries(today[..j]);
    DoneTodayStep(done, today, j);
    var name := today[j].0;
    if EndsWith(name, ".json") && ParseTodayName(name).Some? {
      ApplyAllSnoc(before, Entry(ParseTodayName(name).value.1, ParseTodayName(name).value.0, today[j].1));
    } else {
      assert before + TodayEntryOf(today[j]) == before;
    }
  }

  /** Once the first `k` files of `today/` fail to load, the whole scan does. */
  lemma {:induction false} ScanTodayFails(done: seq<Entry>, today: Dir, k: nat)
    requires k <= |today| && ApplyAll(done + TodayEntries(today[..k])).None?
    ensures ApplyAll(done + TodayEntries(today)).None?
    decreases |today| - k
  {
    if k == |today| {
      assert today[..k] == today;
    } else {
      var before := done + TodayEntries(today[..k]);
      DoneTodayStep(done, today, k);
      ApplyAllFails(before, TodayEntryOf(today[k]));
      ScanTodayFails(done, today, k + 1);
    }
  }

  /** The scan of the `today/` directory, loading each `.json` file whose name parses into `merged`. */
  method ScanToday(merged: Ladder, ghost done: seq<Entry>, today: Dir) returns (r: Option<Ladder>)
    requires ApplyAll(done) == Some(merged)
    ensures r == ApplyAll(done + TodayEntries(today))
  {
    var m := merged;
    assert today[..0] == [];
    assert done + TodayEntries(today[..0]) == done;
    for j := 0 to |today|
      invariant ApplyAll(done + TodayEntries(today[..j])) == Some(m)
    {
      ScanTodayStep(done, today, j, m);
      var filename, state := today[j].0, today[j].1;
      var parsed := if EndsWith(filename, ".json") then ParseTodayName(filename) else None;
      if parsed.Some? {
        var dataType, dateStr := parsed.value.0, parsed.value.1;
        var loaded := LoadJsonFile(Some(state));
        if loaded.None? {
          ScanTodayFails(done, today, j + 1);
          return None;
        }
        m := Put(m, dateStr, dataType, loaded.value);
      }
    }
    assert today[..|today|] == today;
    r := Some(m);
  }

  /**
   * The three history scans and the `today` scan of `generate_javascript_data`, loading
   * each file into the merge map; a file that does not parse aborts the generation.
   */
  method MergeLadder(h: HistoryDirs, today: Dir) returns (r: Option<Ladder>)
    ensures r == ApplyAll(HistoryEntries(h, Categories) + TodayEntries(today))
  {
    var merged: Ladder := map[];
    ghost var done: seq<Entry> := [];
    for ci := 0 to |Categories|
      invariant done == HistoryEntries(h, Categories[..ci])
      invariant ApplyAll(done) == Some(merged)
    {
      var c := Categories[ci];
      HistoryStep(h, Categories, ci);
      var scanned := ScanHistoryDir(merged, done, DirOf(h, c), DirName(c));
      if scanned.None? {
        MergeFails(h, Categories, ci + 1, TodayEntries(today));
        return None;
      }
      merged := scanned.value;
      done := done + HistoryDirEntries(DirOf(h, c), DirName(c));
    }
    assert Categories[..|Categories|] == Categories;
    r := ScanToday(merged, done, today);
  }

  /** The history entries of the first `ci + 1` categories. */
  lemma HistoryStep(h: HistoryDirs, cats: seq<Category>, ci: nat)
    requires ci < |cats|
    ensures HistoryEntries(h, cats[..ci + 1]) == HistoryEntries(h, cats[..ci]) + HistoryDirEntries(DirOf(h, cats[ci]), DirName(cats[ci]))
  {
    assert cats[..ci + 1][..ci] == cats[..ci];
  }

  /** Once the directories of the first `k` categories fail to load, the whole merge does. */
  lemma {:induction false} MergeFails(h: HistoryDirs, cats: seq<Category>, k: nat, rest: seq<Entry>)
    requires k <= |cats| && ApplyAll(HistoryEntries(h, cats[..k])).None?
    ensures ApplyAll(HistoryEntries(h, cats) + rest).None?
    decreases |cats| - k
  {
    if k == |cats| {
      assert cats[..k] == cats;
      ApplyAllFails(HistoryEntries(h, cats), rest);
    } else {
      HistoryStep(h, cats, k);
      ApplyAllFails(HistoryEntries(h, cats[..k]), HistoryDirEntries(DirOf(h, cats[k]), DirName(cats[k])));
      MergeFails(h, cats, k + 1, rest);
    }
  }

  /** An entry of the first `k` files of a directory is an entry of the directory. */
  lemma {:induction false} DirPrefixMember(dir: Dir, k: nat, kind: string, e: Entry)
    requires k <= |dir| && e in HistoryDirEntries(dir[..k], kind)
    ensures e in HistoryDirEntries(dir, kind)
    decreases |dir| - k
  {
    if k == |dir| {
      assert dir[..k] == dir;
    } else {
      HistoryDirStep(dir, k, kind);
      DirPrefixMember(dir, k + 1, kind, e);
    }
  }

  /** The `i`-th file of a directory, when named `.json`, is among the directory's entries. */
  lemma DirFileIsEntry(dir: Dir, i: nat, kind: string)
    requires i < |dir| && EndsWith(dir[i].0, ".json")
    ensures Entry(ReplaceAll(dir[i].0, ".json", ""), kind, dir[i].1) in HistoryDirEntries(dir, kind)
  {
    HistoryDirStep(dir, i, kind);
    DirPrefixMember(dir, i + 1, kind, Entry(ReplaceAll(dir[i].0, ".json", ""), kind, dir[i].1));
  }

  /** An entry of the directory of a category in `cats` is among the history entries of `cats`. */
  lemma {:induction false} DirEntryInHistory(h: HistoryDirs, cats: seq<Category>, c: Category, e: Entry)
    requires c in cats && e in HistoryDirEntries(DirOf(h, c), DirName(c))
    ensures e in HistoryEntries(h, cats)
    decreases |cats|
  {
    var init, last := cats[..|cats| - 1], cats[|cats| - 1];
    assert cats == init + [last];
    if last != c {
      DirEntryInHistory(h, init, c, e);
    }
  }

  /** Every history snapshot that loads lands in the map under its date and its category's directory name. */
  lemma HistoryFileLands(h: HistoryDirs, today: Dir, c: Category, i: nat)
    requires i < |DirOf(h, c)| && EndsWith(DirOf(h, c)[i].0, ".json")
    requires ApplyAll(HistoryEntries(h, Categories) + TodayEntries(today)).Some?
    ensures var date := ReplaceAll(DirOf(h, c)[i].0, ".json", "");
      var m := ApplyAll(HistoryEntries(h, Categories) + TodayEntries(today)).value;
      date in m && DirName(c) in m[date]
  {
    var dir := DirOf(h, c);
    var date := ReplaceAll(dir[i].0, ".json", "");
    var hs := HistoryEntries(h, Categories);
    var es := hs + TodayEntries(today);
    var e := Entry(date, DirName(c), dir[i].1);
    DirFileIsEntry(dir, i, DirName(c));
    DirEntryInHistory(h, Categories, c, e);
    var k :| 0 <= k < |hs| && hs[k] == e;
    assert es[k] == e;
    LadderLookup(es, date, DirName(c));
  }

  // ---------------------------------------------------------------- generate_javascript_data, the emission

  /** `sorted(merged_data.keys(), reverse=True)`. */
  method DatesNewestFirst(m: Ladder) returns (dates: seq<string>)
    ensures StrictlyDescending(dates)
    ensures forall d :: d in dates <==> d in m
    ensures |dates| == |m|
  {
    var ascending := SortedOf(m.Keys);
    ReverseAscending(ascending);
    dates := Reverse(ascending);
    assert forall d :: d in dates <==> d in ascending by {
      forall d ensures d in dates <==> d in ascending {
        if d in ascending {
          var i :| 0 <= i < |ascending| && ascending[i] == d;
          assert dates[|ascending| - 1 - i] == d;
        }
      }
    }
  }

  /** The text one date adds: `\n    "<date>": <dumped>,`. */
  function EntryText(date: string, dumped: string): string
  {
    "\n    \"" + date + "\": " + dumped + ","
  }

  /** The object-literal body after the header, before the trailing comma is trimmed. */
  function BodyText(dates: seq<string>, dumped: seq<string>): string
    requires |dates| == |dumped|
    decreases |dates|
  {
    if dates == [] then ""
    else BodyText(dates[..|dates| - 1], dumped[..|dumped| - 1]) + EntryText(dates[|dates| - 1], dumped[|dumped| - 1])
  }

  /** Python's `s.rstrip(c)` for one character. */
  function RStrip(s: string, c: char): (r: string)
    ensures |r| <= |s| && r == s[..|r|]
    ensures r == [] || r[|r| - 1] != c
    ensures forall i :: |r| <= i < |s| ==> s[i] == c
    decreases |s|
  {
    if s != [] && s[|s| - 1] == c then RStrip(s[..|s| - 1], c) else s
  }

  /** The header the generated file opens with, ending in `const ladderData = {` and a newline. */
  function Header(comment: string): (h: string)
    ensures h != [] && h[|h| - 1] == '\n'
  {
    comment + "\nconst ladderData = {\n"
  }

  /** The dumped text of each date's data, in the order of `dates`. */
  function DumpAll(dates: seq<string>, m: Ladder, dumps: map<string, Json> -> string): (r: seq<string>)
    requires forall d :: d in dates ==> d in m
    ensures |r| == |dates| && forall i :: 0 <= i < |dates| ==> r[i] == dumps(m[dates[i]])
  {
    seq(|dates|, i requires 0 <= i < |dates| => dumps(m[dates[i]]))
  }

  /** The object literal: the header, one entry per date, the last comma removed, then `};`. */
  method EmitLadder(comment: string, m: Ladder, dumps: map<string, Json> -> string)
    returns (jsContent: string, dates: seq<string>)
    ensures StrictlyDescending(dates) && forall d :: d in dates <==> d in m
    ensures jsContent == RStrip(Header(comment) + BodyText(dates, DumpAll(dates, m, dumps)), ',') + "\n};\n"
  {
    dates := DatesNewestFirst(m);
    ghost var dumped := DumpAll(dates, m, dumps);
    jsContent := Header(comment);
    for i := 0 to |dates|
      invariant jsContent == Header(comment) + BodyText(dates[..i], dumped[..i])
    {
      var dateData := m[dates[i]];
      var jsData := dumps(dateData);
      BodyStep(Header(comment), dates, dumped, i);
      jsContent := jsContent + EntryText(dates[i], jsData);
    }
    BodyWhole(dates, dumped);
    jsContent := RStrip(jsContent, ',');
    jsContent := jsContent + "\n};\n";
  }

  /** One more date adds its entry at the end of the body. */
  lemma BodyStep(h: string, dates: seq<string>, dumped: seq<string>, i: nat)
    requires |dates| == |dumped| && i < |dates|
    ensures h + BodyText(dates[..i + 1], dumped[..i + 1]) == (h + BodyText(dates[..i], dumped[..i])) + EntryText(dates[i], dumped[i])
  {
    assert dates[..i + 1][..i] == dates[..i] && dumped[..i + 1][..i] == dumped[..i];
  }

  lemma BodyWhole(dates: seq<string>, dumped: seq<string>)
    requires |dates| == |dumped|
    ensures BodyText(dates[..|dates|], dumped[..|dumped|]) == BodyText(dates, dumped)
  {
    var ds, us := dates[..|dates|], dumped[..|dumped|];
    assert ds == dates;
    assert us == dumped;
  }

  /** With no dates the trim leaves the header as it is. */
  lemma TrimWithoutDates(comment: string)
    ensures RStrip(Header(comment) + BodyText([], []), ',') == Header(comment)
  {
  }

  /** With dates, the trim removes exactly the comma after the last entry, when its dump does not end in a comma. */
  lemma TrimRemovesLastComma(comment: string, dates: seq<string>, dumped: seq<string>)
    requires |dates| == |dumped| && dates != []
    requires dumped[|dumped| - 1] == [] || dumped[|dumped| - 1][|dumped[|dumped| - 1]| - 1] != ','
    ensures var s := Header(comment) + BodyText(dates, dumped);
      RStrip(s, ',') == s[..|s| - 1]
  {
    var t := LastCommaSplit(comment, dates, dumped);
    RStripOne(t, ',');
    var s := Header(comment) + BodyText(dates, dumped);
    assert s[..|s| - 1] == t;
  }

  /** The text with dates ends in the last entry's comma, preceded by something other than a comma. */
  lemma LastCommaSplit(comment: string, dates: seq<string>, dumped: seq<string>) returns (t: string)
    requires |dates| == |dumped| && dates != []
    requires dumped[|dumped| - 1] == [] || dumped[|dumped| - 1][|dumped[|dumped| - 1]| - 1] != ','
    ensures Header(comment) + BodyText(dates, dumped) == t + [',']
    ensures t != [] && t[|t| - 1] != ','
  {
    var n := |dates|;
    var last := dumped[n - 1];
    var body0 := BodyText(dates[..n - 1], dumped[..n - 1]);
    var q := "\n    \"" + dates[n - 1] + "\": ";
    assert q[|q| - 1] == ' ';
    assert EntryText(dates[n - 1], last) == (q + last) + [','];
    var prefix := Header(comment) + body0 + q;
    t := prefix + last;
    calc {
      Header(comment) + BodyText(dates, dumped);
      Header(comment) + (body0 + ((q + last) + [',']));
      t + [','];
    }
    if last == [] {
      assert t == prefix && prefix[|prefix| - 1] == ' ';
    } else {
      assert t[|t| - 1] == last[|last| - 1];
    }
  }

  lemma RStripOne(t: string, c: char)
    requires t == [] || t[|t| - 1] != c
    ensures RStrip(t + [c], c) == t
  {
    assert (t + [c])[..|t|] == t;
  }
}
