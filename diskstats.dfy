/**
 * One sample of /proc/diskstats as `ZIOStat.get_diskstats` reads it: each line
 * split into fields, rows of unmapped devices skipped, numbers converted, the
 * volume name attached and sectors converted to bytes through the memoised
 * sector size of the device.
 */
module Diskstats {
  import opened Wrappers
  import opened PyStr

  /** The source zips the fields of a line against this many column names. */
  const COLUMNS: nat := 14

  /**
   * A row of the sample: the fourteen columns of /proc/diskstats, the volume
   * name and the two byte counts. A line of ten to thirteen fields yields a
   * row without the trailing columns, so those four are optional.
   */
  datatype Row = Row(
    major: int, minor: int, name: string,
    readsCompleted: int, readsMerged: int, readSectors: int, readsTotalTime: int,
    writesCompleted: int, writesMerged: int, writeSectors: int,
    writesTotalTime: Option<int>, ioPending: Option<int>,
    ioTotalTime: Option<int>, ioWeightedTime: Option<int>,
    zvol: string, readBytes: int, writeBytes: int)

  /** The fields of a line that survive the zip against the column names. */
  function Fields(line: string): (f: seq<string>)
    ensures |f| <= COLUMNS
  {
    var ws := Words(line);
    if |ws| <= COLUMNS then ws else ws[..COLUMNS]
  }

  /** The `name` column of a line, if the line has one. */
  function NameOf(line: string): Option<string> {
    var f := Fields(line);
    if |f| >= 3 then Some(f[2]) else None
  }

  /** Every field except `name` is text `int()` accepts. */
  predicate Numeric(f: seq<string>) {
    forall i :: 0 <= i < |f| && i != 2 ==> ParseInt(f[i]).Some?
  }

  /** The converted fields; the `name` position, left as text by the source, holds 0. */
  function Values(f: seq<string>): seq<int>
    requires Numeric(f)
  {
    seq(|f|, i requires 0 <= i < |f| => if i == 2 then 0 else ParseInt(f[i]).value)
  }

  /**
   * Fields holding the decimal text of integers, whatever the `name` field
   * holds, are numeric and convert back to those integers.
   */
  lemma ValuesRoundTrip(f: seq<string>, ns: seq<int>)
    requires |f| == |ns|
    requires forall i :: 0 <= i < |f| && i != 2 ==> f[i] == Decimal(ns[i])
    ensures Numeric(f)
    ensures forall i :: 0 <= i < |f| && i != 2 ==> Values(f)[i] == ns[i]
  {
    forall i | 0 <= i < |f| && i != 2
      ensures ParseInt(f[i]) == Some(ns[i])
    {
      DecimalRoundTrip(ns[i]);
    }
  }

  /** The loop that converts every field except `name` with `int()`. */
  method ConvertFields(f: seq<string>) returns (r: Option<seq<int>>)
    ensures r.Some? <==> Numeric(f)
    ensures r.Some? ==> r.value == Values(f)
  {
    var v: seq<int> := [];
    var i := 0;
    while i < |f|
      invariant 0 <= i <= |f|
      invariant |v| == i
      invariant forall j :: 0 <= j < i && j != 2 ==> ParseInt(f[j]) == Some(v[j])
      invariant forall j :: 0 <= j < i && j == 2 ==> v[j] == 0
    {
      if i == 2 {
        v := v + [0];
      } else {
        var n := ParseInt(f[i]);
        if n.None? {
          return None;
        }
        v := v + [n.value];
      }
      i := i + 1;
    }
    r := Some(v);
  }

  function Column(v: seq<int>, i: nat): Option<int> {
    if i < |v| then Some(v[i]) else None
  }

  /** The row built from the fields of a line, the volume name and the two sector sizes read. */
  function MakeRow(f: seq<string>, v: seq<int>, zvol: string, readSize: int, writeSize: int): Row
    requires 10 <= |f| <= COLUMNS && |v| == |f|
  {
    Row(v[0], v[1], f[2], v[3], v[4], v[5], v[6], v[7], v[8], v[9],
        Column(v, 10), Column(v, 11), Column(v, 12), Column(v, 13),
        zvol, v[5] * readSize, v[9] * writeSize)
  }

  /** The file holding the hardware sector size of a device. */
  function SectorSizePath(device: string): string {
    "/sys/block/" + device + "/queue/hw_sector_size"
  }

  /** A cache entry that a later cache still holds unchanged. */
  predicate Extends(larger: map<string, int>, smaller: map<string, int>) {
    forall k :: k in smaller ==> k in larger && larger[k] == smaller[k]
  }

  /** What one `get_sector_size` call returns, and the cache and file-read log after it. */
  datatype Lookup = Lookup(size: Result<int>, cache: map<string, int>, log: seq<string>)

  /**
   * `get_sector_size(device)`: the cached size, or else the integer in the
   * device's sector-size file, cached on success. `readFile` gives a file's
   * contents, or None when it cannot be opened; `log` records every read.
   */
  function SectorLookup(cache: map<string, int>, log: seq<string>, device: string,
                        readFile: string -> Option<string>): Lookup
  {
    if device in cache then Lookup(Ok(cache[device]), cache, log) else SectorFile(cache, log, device, readFile)
  }

  /** The uncached case: the device's sector-size file is read, and its integer cached. */
  function SectorFile(cache: map<string, int>, log: seq<string>, device: string,
                      readFile: string -> Option<string>): Lookup
  {
    var path := SectorSizePath(device);
    match readFile(path)
    case None => Lookup(Err(IOError(path)), cache, log + [path])
    case Some(text) =>
      match ParseInt(Strip(text))
      case None => Lookup(Err(ValueError), cache, log + [path])
      case Some(size) => Lookup(Ok(size), cache[device := size], log + [path])
  }

  /**
   * A cached size is returned without reading; otherwise the device's file
   * is read once, and the cache changes only by the new entry when the file
   * opens and holds an integer; a failed read raises IOError (the file does
   * not open) or ValueError (it holds no integer).
   */
  lemma SectorLookupFacts(cache: map<string, int>, log: seq<string>, device: string,
                          readFile: string -> Option<string>)
    ensures var l := SectorLookup(cache, log, device, readFile);
      device in cache ==> l == Lookup(Ok(cache[device]), cache, log)
    ensures var l := SectorLookup(cache, log, device, readFile);
      device !in cache ==> l.log == log + [SectorSizePath(device)]
    ensures var l := SectorLookup(cache, log, device, readFile);
      Extends(l.cache, cache) && l.cache.Keys <= cache.Keys + {device}
    ensures var l := SectorLookup(cache, log, device, readFile);
      l.size.Ok? ==> device in l.cache && l.cache[device] == l.size.value
    ensures var l := SectorLookup(cache, log, device, readFile);
      l.size.Ok? && device !in cache ==>
      readFile(SectorSizePath(device)).Some? &&
      ParseInt(Strip(readFile(SectorSizePath(device)).value)) == Some(l.size.value)
    ensures var l := SectorLookup(cache, log, device, readFile);
      l.size.Err? ==> device !in cache && l.cache == cache
    ensures var l := SectorLookup(cache, log, device, readFile);
      l.size.Err? ==>
      l.size.error == (if readFile(SectorSizePath(device)).None? then IOError(SectorSizePath(device)) else ValueError)
  {
  }

  datatype LineOutcome = Skipped | Failed(error: Error) | Parsed(row: Row)

  /** What one line contributes, and the cache and log after it. */
  datatype LineStep = LineStep(outcome: LineOutcome, cache: map<string, int>, log: seq<string>)

  /**
   * One iteration of the loop over the lines of /proc/diskstats, with the
   * exceptions it raises: a line without a `name` field, a field `int()`
   * rejects, a missing `read_sectors` or `write_sectors` field, or a failed
   * sector-size read. The sector size is looked up twice, once per byte count.
   */
  function SampleLine(line: string, diskmap: map<string, string>, cache: map<string, int>,
                      log: seq<string>, readFile: string -> Option<string>): LineStep
  {
    var f := Fields(line);
    if |f| < 3 then LineStep(Failed(KeyError("name")), cache, log)
    else if f[2] !in diskmap then LineStep(Skipped, cache, log)
    else if !Numeric(f) then LineStep(Failed(ValueError), cache, log)
    else ByteCounts(f, Values(f), diskmap[f[2]], cache, log, readFile)
  }

  /**
   * The end of one iteration, once the fields are converted: the two byte
   * counts, each through a sector-size lookup, and the finished row.
   */
  function ByteCounts(f: seq<string>, v: seq<int>, zvol: string, cache: map<string, int>,
                      log: seq<string>, readFile: string -> Option<string>): LineStep
    requires 3 <= |f| <= COLUMNS && |v| == |f|
  {
    if |f| < 6 then LineStep(Failed(KeyError("read_sectors")), cache, log)
    else
      var first := SectorLookup(cache, log, f[2], readFile);
      if first.size.Err? then LineStep(Failed(first.size.error), first.cache, first.log)
      else if |f| < 10 then LineStep(Failed(KeyError("write_sectors")), first.cache, first.log)
      else
        var second := SectorLookup(first.cache, first.log, f[2], readFile);
        LineStep(Parsed(MakeRow(f, v, zvol, first.size.value, second.size.value)), second.cache, second.log)
  }

  /**
   * What one line does: the cache only grows and the log only grows at its
   * end; a line is skipped exactly when it names an unmapped device; a line
   * without a name raises KeyError; a parsed line gives the row built from
   * its fields, with the device's volume name and cached sector size.
   */
  lemma SampleLineFacts(line: string, diskmap: map<string, string>, cache: map<string, int>,
                        log: seq<string>, readFile: string -> Option<string>)
    ensures var s := SampleLine(line, diskmap, cache, log, readFile);
      Extends(s.cache, cache)
    ensures var s := SampleLine(line, diskmap, cache, log, readFile);
      |log| <= |s.log| && s.log[..|log|] == log
    ensures var s := SampleLine(line, diskmap, cache, log, readFile);
      s.outcome.Skipped? <==> NameOf(line).Some? && NameOf(line).value !in diskmap
    ensures var s := SampleLine(line, diskmap, cache, log, readFile);
      NameOf(line).None? ==> s.outcome == Failed(KeyError("name"))
    ensures var s := SampleLine(line, diskmap, cache, log, readFile);
      s.outcome.Parsed? ==>
      var f := Fields(line);
      var row := s.outcome.row;
      |f| >= 10 && Numeric(f) && NameOf(line) == Some(row.name) &&
      row.name in diskmap && row.name in s.cache &&
      row == MakeRow(f, Values(f), diskmap[row.name], s.cache[row.name], s.cache[row.name])
  {
    var f := Fields(line);
    if 6 <= |f| && f[2] in diskmap && Numeric(f) {
      SectorLookupFacts(cache, log, f[2], readFile);
      var first := SectorLookup(cache, log, f[2], readFile);
      SectorLookupFacts(first.cache, first.log, f[2], readFile);
    }
  }

  /**
   * One line reads a sector-size file at most once, although it looks the
   * size up twice: either it reads nothing, or its device was not cached
   * and it reads that device's file exactly once.
   */
  lemma SampleLineOneRead(line: string, diskmap: map<string, string>, cache: map<string, int>,
                          log: seq<string>, readFile: string -> Option<string>)
    ensures var s := SampleLine(line, diskmap, cache, log, readFile);
      s.log == log ||
      (NameOf(line).Some? && NameOf(line).value !in cache &&
       s.log == log + [SectorSizePath(NameOf(line).value)])
  {
    var f := Fields(line);
    if 6 <= |f| && f[2] in diskmap && Numeric(f) {
      SectorLookupFacts(cache, log, f[2], readFile);
      var first := SectorLookup(cache, log, f[2], readFile);
      SectorLookupFacts(first.cache, first.log, f[2], readFile);
    }
  }

  /** The sample (or the exception that ended it), and the cache and log after it. */
  datatype Sampled = Sampled(rows: Result<map<string, Row>>, cache: map<string, int>, log: seq<string>)

  /** `newdata[data["name"]] = data` for a parsed line; nothing otherwise. */
  function Collect(rows: map<string, Row>, outcome: LineOutcome): map<string, Row> {
    if outcome.Parsed? then rows[outcome.row.name := outcome.row] else rows
  }

  /**
   * The rest of the loop over `lines`, given the rows collected so far; a
   * later row for the same device replaces an earlier one.
   */
  function Sample(lines: seq<string>, diskmap: map<string, string>, rows: map<string, Row>,
                  cache: map<string, int>, log: seq<string>,
                  readFile: string -> Option<string>): Sampled
    decreases |lines|
  {
    if lines == [] then Sampled(Ok(rows), cache, log)
    else
      var step := SampleLine(lines[0], diskmap, cache, log, readFile);
      if step.outcome.Failed? then Sampled(Err(step.outcome.error), step.cache, step.log)
      else Sample(lines[1..], diskmap, Collect(rows, step.outcome), step.cache, step.log, readFile)
  }

  /** One step of `Sample`: the first line's outcome decides how the rest is read. */
  lemma SampleStep(lines: seq<string>, diskmap: map<string, string>, rows: map<string, Row>,
                   cache: map<string, int>, log: seq<string>,
                   readFile: string -> Option<string>, step: LineStep)
    requires lines != [] && step == SampleLine(lines[0], diskmap, cache, log, readFile)
    ensures step.outcome.Failed? ==>
      Sample(lines, diskmap, rows, cache, log, readFile) == Sampled(Err(step.outcome.error), step.cache, step.log)
    ensures !step.outcome.Failed? ==>
      Sample(lines, diskmap, rows, cache, log, readFile) ==
      Sample(lines[1..], diskmap, Collect(rows, step.outcome), step.cache, step.log, readFile)
  {
  }

  /** Every row is keyed by its name, and its byte counts use the cached sector size. */
  ghost predicate RowsMatchCache(rows: map<string, Row>, cache: map<string, int>) {
    forall d :: d in rows ==>
      rows[d].name == d && d in cache &&
      rows[d].readBytes == rows[d].readSectors * cache[d] &&
      rows[d].writeBytes == rows[d].writeSectors * cache[d]
  }

  /** Rows that agree with a cache agree with every cache extending it. */
  lemma RowsMatchExtended(rows: map<string, Row>, cache: map<string, int>, larger: map<string, int>)
    requires RowsMatchCache(rows, cache) && Extends(larger, cache)
    ensures RowsMatchCache(rows, larger)
  {
  }

  /** Every row is of a mapped device and carries that device's volume name. */
  ghost predicate RowsMatchMap(rows: map<string, Row>, diskmap: map<string, string>) {
    forall d :: d in rows ==> d in diskmap && rows[d].zvol == diskmap[d]
  }

  /** Sampling only adds to the cache and appends to the log. */
  lemma {:induction false} SampleGrows(lines: seq<string>, diskmap: map<string, string>, rows: map<string, Row>,
                                       cache: map<string, int>, log: seq<string>,
                                       readFile: string -> Option<string>)
    ensures var s := Sample(lines, diskmap, rows, cache, log, readFile);
      Extends(s.cache, cache) && |log| <= |s.log| && s.log[..|log|] == log
    decreases |lines|
  {
    if lines != [] {
      var step := SampleLine(lines[0], diskmap, cache, log, readFile);
      SampleLineFacts(lines[0], diskmap, cache, log, readFile);
      SampleStep(lines, diskmap, rows, cache, log, readFile, step);
      if !step.outcome.Failed? {
        SampleGrows(lines[1..], diskmap, Collect(rows, step.outcome), step.cache, step.log, readFile);
      }
    }
  }

  /** One line keeps the collected rows consistent with the cache and the device map. */
  lemma CollectConsistent(line: string, diskmap: map<string, string>, rows: map<string, Row>,
                          cache: map<string, int>, log: seq<string>,
                          readFile: string -> Option<string>)
    requires RowsMatchCache(rows, cache) && RowsMatchMap(rows, diskmap)
    ensures var step := SampleLine(line, diskmap, cache, log, readFile);
      RowsMatchCache(Collect(rows, step.outcome), step.cache) && RowsMatchMap(Collect(rows, step.outcome), diskmap)
  {
    var step := SampleLine(line, diskmap, cache, log, readFile);
    SampleLineFacts(line, diskmap, cache, log, readFile);
    RowsMatchExtended(rows, cache, step.cache);
  }

  /**
   * Every row of a completed sample is of a mapped device, carries its volume
   * name, and has `read_bytes == read_sectors * size` and
   * `write_bytes == write_sectors * size` for the device's cached sector size.
   */
  lemma {:induction false} SampleConsistent(lines: seq<string>, diskmap: map<string, string>, rows: map<string, Row>,
                                            cache: map<string, int>, log: seq<string>,
                                            readFile: string -> Option<string>)
    requires RowsMatchCache(rows, cache) && RowsMatchMap(rows, diskmap)
    ensures var s := Sample(lines, diskmap, rows, cache, log, readFile);
      s.rows.Ok? ==> RowsMatchCache(s.rows.value, s.cache) && RowsMatchMap(s.rows.value, diskmap)
    decreases |lines|
  {
    if lines != [] {
      var step := SampleLine(lines[0], diskmap, cache, log, readFile);
      SampleStep(lines, diskmap, rows, cache, log, readFile, step);
      if !step.outcome.Failed? {
        CollectConsistent(lines[0], diskmap, rows, cache, log, readFile);
        SampleConsistent(lines[1..], diskmap, Collect(rows, step.outcome), step.cache, step.log, readFile);
      }
    }
  }

  /** The names of the lines whose device is mapped. */
  ghost function MappedNames(lines: seq<string>, diskmap: map<string, string>): set<string> {
    set i | 0 <= i < |lines| && NameOf(lines[i]).Some? && NameOf(lines[i]).value in diskmap
      :: NameOf(lines[i]).value
  }

  lemma MappedNamesCons(lines: seq<string>, diskmap: map<string, string>)
    requires lines != []
    ensures MappedNames(lines, diskmap) ==
      (if NameOf(lines[0]).Some? && NameOf(lines[0]).value in diskmap then {NameOf(lines[0]).value} else {}) +
      MappedNames(lines[1..], diskmap)
  {
    var rest := lines[1..];
    forall d | d in MappedNames(rest, diskmap) ensures d in MappedNames(lines, diskmap) {
      var i :| 0 <= i < |rest| && NameOf(rest[i]).Some? && NameOf(rest[i]).value in diskmap && NameOf(rest[i]).value == d;
      assert lines[i + 1] == rest[i];
    }
    forall d | d in MappedNames(lines, diskmap) && d !in MappedNames(rest, diskmap)
      ensures NameOf(lines[0]) == Some(d)
    {
      var i :| 0 <= i < |lines| && NameOf(lines[i]).Some? && NameOf(lines[i]).value in diskmap && NameOf(lines[i]).value == d;
      assert i == 0;
    }
  }

  /** The keys one line adds: its device's, when the line is parsed. */
  lemma CollectKeys(line: string, diskmap: map<string, string>, rows: map<string, Row>,
                    cache: map<string, int>, log: seq<string>,
                    readFile: string -> Option<string>)
    ensures var step := SampleLine(line, diskmap, cache, log, readFile);
      !step.outcome.Failed? ==>
      Collect(rows, step.outcome).Keys ==
      rows.Keys + (if NameOf(line).Some? && NameOf(line).value in diskmap then {NameOf(line).value} else {})
  {
    SampleLineFacts(line, diskmap, cache, log, readFile);
  }

  /** A completed sample holds exactly the rows collected before and one per mapped device seen. */
  lemma {:induction false} SampleKeys(lines: seq<string>, diskmap: map<string, string>, rows: map<string, Row>,
                                      cache: map<string, int>, log: seq<string>,
                                      readFile: string -> Option<string>)
    ensures var s := Sample(lines, diskmap, rows, cache, log, readFile);
      s.rows.Ok? ==> s.rows.value.Keys == rows.Keys + MappedNames(lines, diskmap)
    decreases |lines|
  {
    if lines != [] {
      MappedNamesCons(lines, diskmap);
      var step := SampleLine(lines[0], diskmap, cache, log, readFile);
      SampleStep(lines, diskmap, rows, cache, log, readFile, step);
      if !step.outcome.Failed? {
        CollectKeys(lines[0], diskmap, rows, cache, log, readFile);
        SampleKeys(lines[1..], diskmap, Collect(rows, step.outcome), step.cache, step.log, readFile);
      }
    }
  }

  /** A row collected earlier survives when no later line names its device. */
  lemma {:induction false} SampleUntouched(lines: seq<string>, diskmap: map<string, string>, rows: map<string, Row>,
                                           cache: map<string, int>, log: seq<string>,
                                           readFile: string -> Option<string>, d: string)
    requires d in rows
    requires forall j {:trigger NameOf(lines[j])} :: 0 <= j < |lines| ==> NameOf(lines[j]) != Some(d)
    ensures var s := Sample(lines, diskmap, rows, cache, log, readFile);
      s.rows.Ok? ==> d in s.rows.value && s.rows.value[d] == rows[d]
    decreases |lines|
  {
    if lines != [] {
      var rest := lines[1..];
      assert forall j {:trigger NameOf(rest[j])} :: 0 <= j < |rest| ==> NameOf(rest[j]) != Some(d) by {
        assert forall j :: 0 <= j < |rest| ==> rest[j] == lines[j + 1];
      }
      var step := SampleLine(lines[0], diskmap, cache, log, readFile);
      SampleLineFacts(lines[0], diskmap, cache, log, readFile);
      SampleStep(lines, diskmap, rows, cache, log, readFile, step);
      if !step.outcome.Failed? {
        SampleUntouched(rest, diskmap, Collect(rows, step.outcome), step.cache, step.log, readFile, d);
      }
    }
  }

  /**
   * The completed sample `s` holds, for the device `line` names, the row
   * built from that line's fields with the device's cached sector size.
   */
  ghost predicate RowOfLine(s: Sampled, line: string, diskmap: map<string, string>) {
    var f := Fields(line);
    s.rows.Ok? && |f| >= 10 && Numeric(f) && f[2] in diskmap &&
    f[2] in s.rows.value && f[2] in s.cache &&
    s.rows.value[f[2]] == MakeRow(f, Values(f), diskmap[f[2]], s.cache[f[2]], s.cache[f[2]])
  }

  /** The row of the first line's device, when no later line names it. */
  lemma SampleFirstLineWins(lines: seq<string>, diskmap: map<string, string>, rows: map<string, Row>,
                            cache: map<string, int>, log: seq<string>,
                            readFile: string -> Option<string>)
    requires lines != []
    requires Sample(lines, diskmap, rows, cache, log, readFile).rows.Ok?
    requires NameOf(lines[0]).Some? && NameOf(lines[0]).value in diskmap
    requires forall j {:trigger NameOf(lines[j])} :: 0 < j < |lines| ==> NameOf(lines[j]) != NameOf(lines[0])
    ensures RowOfLine(Sample(lines, diskmap, rows, cache, log, readFile), lines[0], diskmap)
  {
    var rest := lines[1..];
    var step := SampleLine(lines[0], diskmap, cache, log, readFile);
    SampleLineFacts(lines[0], diskmap, cache, log, readFile);
    SampleStep(lines, diskmap, rows, cache, log, readFile, step);
    assert step.outcome.Parsed?;
    var row := step.outcome.row;
    assert forall j {:trigger NameOf(rest[j])} :: 0 <= j < |rest| ==> NameOf(rest[j]) != Some(row.name) by {
      assert forall j :: 0 <= j < |rest| ==> rest[j] == lines[j + 1];
    }
    SampleUntouched(rest, diskmap, Collect(rows, step.outcome), step.cache, step.log, readFile, row.name);
    SampleGrows(rest, diskmap, Collect(rows, step.outcome), step.cache, step.log, readFile);
  }

  /**
   * The row of a device in a completed sample is built from the last line
   * that names it, with the device's cached sector size.
   */
  lemma {:induction false} SampleLastLineWins(lines: seq<string>, diskmap: map<string, string>, rows: map<string, Row>,
                                              cache: map<string, int>, log: seq<string>,
                                              readFile: string -> Option<string>, i: nat)
    requires i < |lines|
    requires Sample(lines, diskmap, rows, cache, log, readFile).rows.Ok?
    requires NameOf(lines[i]).Some? && NameOf(lines[i]).value in diskmap
    requires forall j {:trigger NameOf(lines[j])} :: i < j < |lines| ==> NameOf(lines[j]) != NameOf(lines[i])
    ensures RowOfLine(Sample(lines, diskmap, rows, cache, log, readFile), lines[i], diskmap)
    decreases i
  {
    if i == 0 {
      SampleFirstLineWins(lines, diskmap, rows, cache, log, readFile);
    } else {
      var rest := lines[1..];
      assert rest[i - 1] == lines[i];
      assert forall j {:trigger NameOf(rest[j])} :: i - 1 < j < |rest| ==> NameOf(rest[j]) != NameOf(rest[i - 1]) by {
        assert forall j :: i - 1 < j < |rest| ==> rest[j] == lines[j + 1];
      }
      var step := SampleLine(lines[0], diskmap, cache, log, readFile);
      SampleStep(lines, diskmap, rows, cache, log, readFile, step);
      SampleLastLineWins(rest, diskmap, Collect(rows, step.outcome), step.cache, step.log, readFile, i - 1);
    }
  }

  /**
   * Fields past the fourteenth change nothing: a line that already holds
   * fourteen fields is read the same whatever follows it after whitespace
   * (more columns, padding, the newline `readlines()` keeps).
   */
  lemma ExtraFieldsIgnored(line: string, rest: string, diskmap: map<string, string>,
                           cache: map<string, int>, log: seq<string>,
                           readFile: string -> Option<string>)
    requires |Words(line)| >= COLUMNS
    requires rest == [] || IsSpace(rest[0])
    ensures SampleLine(line + rest, diskmap, cache, log, readFile) ==
            SampleLine(line, diskmap, cache, log, readFile)
  {
    WordsAppend(line, rest);
    var ws := Words(line);
    assert (ws + Words(rest))[..COLUMNS] == ws[..COLUMNS];
    assert Fields(line + rest) == Fields(line);
  }
}
