/**
 * `ziostat.py`: per-second I/O rates of the block devices behind ZFS volumes.
 * The `ZIOStat` object maps kernel device names to volume names once, then on
 * every call of `GetDiskstats` samples /proc/diskstats and reports the rates
 * since the stored sample.
 */
module Ziostat {
  import opened Wrappers
  import opened PyStr
  import opened Diskstats
  import opened Rates

  // ---------------------------------------------------------------------------
  // Device map (`get_disks`)
  // ---------------------------------------------------------------------------

  /** The length of "/dev/zvol/", cut from each link path to give the volume name. */
  const ZVOL_PREFIX_LENGTH: nat := 10

  /** A symbolic link found under /dev/zvol/ and what `os.readlink` returns for it. */
  datatype Link = Link(path: string, target: string)

  /** `s.split('/')[-1]`. */
  function Leaf(s: string): string {
    if s == [] || s[|s| - 1] == '/' then [] else Leaf(s[..|s| - 1]) + [s[|s| - 1]]
  }

  /** The leaf is the longest suffix of `s` without a slash. */
  lemma {:induction false} LeafIsLastComponent(s: string)
    ensures |Leaf(s)| <= |s| && Leaf(s) == s[|s| - |Leaf(s)|..]
    ensures '/' !in Leaf(s)
    ensures |Leaf(s)| < |s| ==> s[|s| - |Leaf(s)| - 1] == '/'
  {
    if s != [] && s[|s| - 1] != '/' {
      var init, c := s[..|s| - 1], s[|s| - 1];
      LeafIsLastComponent(init);
      var l := Leaf(init);
      assert Leaf(s) == l + [c];
      assert s[|s| - |l| - 1..] == init[|init| - |l|..] + [c];
      assert |Leaf(s)| < |s| ==> s[|s| - |Leaf(s)| - 1] == init[|init| - |l| - 1];
    }
  }

  /** A partition name: a literal 'p' followed by one digit at the end. */
  predicate IsPartition(device: string) {
    |device| >= 2 && device[|device| - 2] == 'p' && IsDigit(device[|device| - 1])
  }

  /** `path[10:]`. */
  function VolumeName(path: string): string {
    if |path| <= ZVOL_PREFIX_LENGTH then "" else path[ZVOL_PREFIX_LENGTH..]
  }

  /**
   * The map `get_disks` builds from the links in order: a leaf name shorter
   * than two characters raises IndexError, a partition is skipped, and any
   * other leaf maps to the link's volume name, a later link replacing an
   * earlier one.
   */
  function DiskMap(links: seq<Link>): Result<map<string, string>>
    decreases |links|
  {
    if links == [] then Ok(map[])
    else
      match DiskMap(links[..|links| - 1])
      case Err(e) => Err(e)
      case Ok(m) =>
        var link := links[|links| - 1];
        var device := Leaf(link.target);
        if |device| < 2 then Err(IndexError)
        else if IsPartition(device) then Ok(m)
        else Ok(m[device := VolumeName(link.path)])
  }

  /** Building the map fails, with IndexError, exactly when some link has a leaf name shorter than two. */
  lemma {:induction false} DiskMapFails(links: seq<Link>)
    ensures DiskMap(links).Err? <==> exists i :: 0 <= i < |links| && |Leaf(links[i].target)| < 2
    ensures DiskMap(links).Err? ==> DiskMap(links).error == IndexError
    decreases |links|
  {
    if links != [] {
      var init := links[..|links| - 1];
      assert forall i :: 0 <= i < |init| ==> init[i] == links[i];
      DiskMapFails(init);
      if DiskMap(init).Err? {
        var i :| 0 <= i < |init| && |Leaf(init[i].target)| < 2;
        assert |Leaf(links[i].target)| < 2;
      }
      if exists i :: 0 <= i < |links| && |Leaf(links[i].target)| < 2 {
        var i :| 0 <= i < |links| && |Leaf(links[i].target)| < 2;
        if i < |init| {
          assert |Leaf(init[i].target)| < 2;
        }
      }
    }
  }

  /**
   * The keys of the map are exactly the leaf names of the links that are not
   * partitions; in particular no partition is ever a key.
   */
  lemma {:induction false} DiskMapKeys(links: seq<Link>)
    requires DiskMap(links).Ok?
    ensures forall k :: k in DiskMap(links).value ==>
      |k| >= 2 && !IsPartition(k) && exists i :: 0 <= i < |links| && Leaf(links[i].target) == k
    ensures forall i :: 0 <= i < |links| && !IsPartition(Leaf(links[i].target)) ==>
      Leaf(links[i].target) in DiskMap(links).value
    decreases |links|
  {
    if links != [] {
      var init := links[..|links| - 1];
      var last := links[|links| - 1];
      assert forall i :: 0 <= i < |init| ==> init[i] == links[i];
      DiskMapKeys(init);
      var m := DiskMap(init).value;
      var leaf := Leaf(last.target);
      assert DiskMap(links).value == if IsPartition(leaf) then m else m[leaf := VolumeName(last.path)];
      forall k | k in DiskMap(links).value
        ensures exists i :: 0 <= i < |links| && Leaf(links[i].target) == k
      {
        if k in m {
          var i :| 0 <= i < |init| && Leaf(init[i].target) == k;
          assert Leaf(links[i].target) == k;
        } else {
          assert Leaf(links[|links| - 1].target) == k;
        }
      }
    }
  }

  /** A non-partition leaf maps to the volume name of the last link with that leaf. */
  lemma {:induction false} DiskMapLastLinkWins(links: seq<Link>, i: nat)
    requires DiskMap(links).Ok?
    requires i < |links| && !IsPartition(Leaf(links[i].target))
    requires forall j :: i < j < |links| ==> Leaf(links[j].target) != Leaf(links[i].target)
    ensures Leaf(links[i].target) in DiskMap(links).value
    ensures DiskMap(links).value[Leaf(links[i].target)] == VolumeName(links[i].path)
    decreases |links|
  {
    var init := links[..|links| - 1];
    var last := links[|links| - 1];
    var m := DiskMap(init).value;
    var leaf := Leaf(last.target);
    assert DiskMap(links).value == if IsPartition(leaf) then m else m[leaf := VolumeName(last.path)];
    if i < |init| {
      assert init[i] == links[i];
      assert forall j :: i < j < |init| ==> init[j] == links[j];
      DiskMapLastLinkWins(init, i);
    }
  }

  // ---------------------------------------------------------------------------
  // `pretty_number`
  // ---------------------------------------------------------------------------

  const SCALES: seq<string> := ["", "K", "M", "G", "T", "P", "E"]

  /** `num` after `k` rounds of `num = int(num / 1024)` (floor division on Python 2 integers). */
  function Shrink(num: int, k: nat): int {
    if k == 0 then num else Shrink(num, k - 1) / 1024
  }

  function Pow1024(k: nat): nat {
    if k == 0 then 1 else 1024 * Pow1024(k - 1)
  }

  lemma {:induction false} Pow1024Monotone(a: nat, b: nat)
    requires a <= b
    ensures Pow1024(a) <= Pow1024(b)
    decreases b
  {
    if a < b {
      Pow1024Monotone(a, b - 1);
    }
  }

  /** Dividing `k` times by 1024 gives less than `bound` exactly when `num < bound * 1024^k`. */
  lemma {:induction false} ShrinkBelow(num: int, k: nat, bound: int)
    requires bound >= 1
    ensures Shrink(num, k) < bound <==> num < bound * Pow1024(k)
  {
    if k > 0 {
      ShrinkBelow(num, k - 1, 1024 * bound);
      assert (1024 * bound) * Pow1024(k - 1) == bound * Pow1024(k);
    }
  }

  /** `"%8d%s" % (num, scale)`. */
  function Render(value: int, scale: string): string {
    FormatInt(value, 8) + scale
  }

  /**
   * `pretty_number(num)` for an integer: the first scale at which the
   * repeatedly divided number is below 1024, which is the scale `k` with
   * `1024^k <= num < 1024^(k+1)` (or the first scale for any number below
   * 1024); nothing from 1024^7 on.
   */
  method PrettyNumber(num: int) returns (r: Option<string>)
    ensures r.None? <==> num >= Pow1024(|SCALES|)
    ensures r.Some? ==>
      exists k :: 0 <= k < |SCALES| &&
        r.value == Render(Shrink(num, k), SCALES[k]) &&
        Shrink(num, k) < 1024 && (forall j :: 0 <= j < k ==> Shrink(num, j) >= 1024) &&
        num < Pow1024(k + 1) && (k == 0 || Pow1024(k) <= num)
  {
    var n := num;
    for k := 0 to |SCALES|
      invariant n == Shrink(num, k)
      invariant forall j :: 0 <= j < k ==> Shrink(num, j) >= 1024
    {
      if n < 1024 {
        ShrinkBelow(num, k, 1024);
        Pow1024Monotone(k + 1, |SCALES|);
        if k > 0 {
          ShrinkBelow(num, k - 1, 1024);
        }
        return Some(Render(n, SCALES[k]));
      }
      n := n / 1024;
    }
    ShrinkBelow(num, |SCALES| - 1, 1024);
    return None;
  }

  // ---------------------------------------------------------------------------
  // The engine
  // ---------------------------------------------------------------------------

  /** The seconds since the stored timestamp, or 0 before the first sample (`interval = 0`). */
  function Interval(previous: Option<real>, now: real): real {
    if previous.Some? then now - previous.value else 0.0
  }

  class ZIOStat {
    /** Kernel device name to volume name. */
    var diskmap: map<string, string>
    /** Device name to hardware sector size, filled on first use. */
    var sectorCache: map<string, int>
    /** The stored sample. */
    var data: map<string, Row>
    /** The time of the last sample; None before the first. */
    var previous: Option<real>
    /** The sector-size files read so far, in order. */
    ghost var readLog: seq<string>

    /**
     * No partition is mapped, a stored sample has a timestamp, and every
     * stored row agrees with the cached sector size of its device.
     */
    ghost predicate Valid()
      reads this`diskmap, this`data, this`previous, this`sectorCache
    {
      (forall k :: k in diskmap ==> |k| >= 2 && !IsPartition(k)) &&
      (data != map[] ==> previous.Some?) &&
      RowsMatchCache(data, sectorCache)
    }

    constructor ()
      ensures Valid()
      ensures diskmap == map[] && sectorCache == map[] && data == map[] && previous == None && readLog == []
    {
      diskmap := map[];
      sectorCache := map[];
      data := map[];
      previous := None;
      readLog := [];
    }

    /** `ZIOStat()`: an engine whose device map is built from `links`, or the exception that stopped it. */
    static method Create(links: seq<Link>) returns (r: Result<ZIOStat>)
      ensures DiskMap(links).Err? ==> r == Err(IndexError)
      ensures DiskMap(links).Ok? ==>
        r.Ok? && fresh(r.value) && r.value.Valid() && r.value.diskmap == DiskMap(links).value &&
        r.value.sectorCache == map[] && r.value.data == map[] && r.value.previous == None
    {
      DiskMapFails(links);
      var z := new ZIOStat();
      var outcome := z.GetDisks(links);
      if outcome.Fail? {
        return Err(outcome.error);
      }
      r := Ok(z);
    }

    /** `get_disks`: replaces the device map by the one built from `links`, unless that raises. */
    method GetDisks(links: seq<Link>) returns (outcome: Outcome)
      requires Valid()
      modifies this`diskmap
      ensures Valid()
      ensures DiskMap(links).Ok? ==> outcome == Pass && diskmap == DiskMap(links).value
      ensures DiskMap(links).Err? ==> outcome == Fail(IndexError) && diskmap == old(diskmap)
    {
      var maps: map<string, string> := map[];
      var i := 0;
      while i < |links|
        invariant 0 <= i <= |links|
        invariant DiskMap(links[..i]) == Ok(maps)
      {
        assert links[..i + 1][..i] == links[..i];
        var device := Leaf(links[i].target);
        if |device| < 2 {
          DiskMapFails(links);
          return Fail(IndexError);
        }
        if !IsPartition(device) {
          maps := maps[device := VolumeName(links[i].path)];
        }
        i := i + 1;
      }
      assert links[..|links|] == links;
      DiskMapKeys(links);
      diskmap := maps;
      outcome := Pass;
    }

    /** `get_sector_size`: the memoised sector size of `device`; see `SectorLookup`. */
    method GetSectorSize(device: string, readFile: string -> Option<string>) returns (size: Result<int>)
      requires Valid()
      modifies this`sectorCache, this`readLog
      ensures Valid()
      ensures Lookup(size, sectorCache, readLog) == SectorLookup(old(sectorCache), old(readLog), device, readFile)
    {
      if device in sectorCache {
        return Ok(sectorCache[device]);
      }
      size := ReadSectorSize(device, readFile);
    }

    /** The `open` and `int(f.read().strip())` of `get_sector_size`; see `SectorFile`. */
    method ReadSectorSize(device: string, readFile: string -> Option<string>) returns (size: Result<int>)
      requires Valid() && device !in sectorCache
      modifies this`sectorCache, this`readLog
      ensures Valid()
      ensures Lookup(size, sectorCache, readLog) == SectorFile(old(sectorCache), old(readLog), device, readFile)
    {
      var path := SectorSizePath(device);
      readLog := readLog + [path];
      var text := readFile(path);
      if text.None? {
        return Err(IOError(path));
      }
      var value := ParseInt(Strip(text.value));
      if value.None? {
        return Err(ValueError);
      }
      assert Extends(sectorCache[device := value.value], sectorCache);
      RowsMatchExtended(data, sectorCache, sectorCache[device := value.value]);
      sectorCache := sectorCache[device := value.value];
      size := Ok(value.value);
    }

    /**
     * One pass of the loop over the lines of /proc/diskstats: split and zip
     * the line, skip an unmapped device, convert the numbers, attach the
     * volume name and compute the byte counts; see `SampleLine`.
     */
    method ReadLine(line: string, readFile: string -> Option<string>) returns (outcome: LineOutcome)
      requires Valid()
      modifies this`sectorCache, this`readLog
      ensures Valid()
      ensures LineStep(outcome, sectorCache, readLog) ==
              SampleLine(line, diskmap, old(sectorCache), old(readLog), readFile)
    {
      var f := Fields(line);
      if |f| < 3 {
        return Failed(KeyError("name"));
      }
      var name := f[2];
      if name !in diskmap {
        return Skipped;
      }
      var values := ConvertFields(f);
      if values.None? {
        return Failed(ValueError);
      }
      outcome := ReadBytes(f, values.value, diskmap[name], readFile);
    }

    /** The byte counts of a converted line and the finished row; see `ByteCounts`. */
    method ReadBytes(f: seq<string>, v: seq<int>, zvol: string, readFile: string -> Option<string>)
      returns (outcome: LineOutcome)
      requires Valid() && 3 <= |f| <= COLUMNS && |v| == |f|
      modifies this`sectorCache, this`readLog
      ensures Valid()
      ensures LineStep(outcome, sectorCache, readLog) ==
              ByteCounts(f, v, zvol, old(sectorCache), old(readLog), readFile)
    {
      if |f| < 6 {
        return Failed(KeyError("read_sectors"));
      }
      var readSize := GetSectorSize(f[2], readFile);
      if readSize.Err? {
        return Failed(readSize.error);
      }
      if |f| < 10 {
        return Failed(KeyError("write_sectors"));
      }
      var writeSize := GetSectorSize(f[2], readFile);
      outcome := Parsed(MakeRow(f, v, zvol, readSize.value, writeSize.value));
    }

    /**
     * The loop of `get_diskstats` over the lines of /proc/diskstats: the new
     * sample, or the exception that stopped it; see `Sample`.
     */
    method ReadSample(lines: seq<string>, readFile: string -> Option<string>)
      returns (rows: Result<map<string, Row>>)
      requires Valid()
      modifies this`sectorCache, this`readLog
      ensures Valid()
      ensures Sampled(rows, sectorCache, readLog) ==
              Sample(lines, diskmap, map[], old(sectorCache), old(readLog), readFile)
    {
      var newdata: map<string, Row> := map[];
      var i := 0;
      while i < |lines|
        invariant 0 <= i <= |lines|
        invariant Valid()
        invariant Sample(lines, diskmap, map[], old(sectorCache), old(readLog), readFile) ==
                  Sample(lines[i..], diskmap, newdata, sectorCache, readLog, readFile)
      {
        assert lines[i..][0] == lines[i] && lines[i..][1..] == lines[i + 1..];
        ghost var step := SampleLine(lines[i], diskmap, sectorCache, readLog, readFile);
        SampleStep(lines[i..], diskmap, newdata, sectorCache, readLog, readFile, step);
        var outcome := ReadLine(lines[i], readFile);
        assert step == LineStep(outcome, sectorCache, readLog);
        if outcome.Failed? {
          return Err(outcome.error);
        }
        newdata := Collect(newdata, outcome);
        i := i + 1;
      }
      assert lines[|lines|..] == [];
      rows := Ok(newdata);
    }

    /**
     * `get_diskstats`, given the time, the lines of /proc/diskstats and the
     * sector-size files. The timestamp is stored first; then the sample is
     * read (see `Sample`), and an exception there leaves the stored sample
     * as it was. With no stored sample the new one is stored and the report
     * is empty; otherwise the rate report over the elapsed interval is
     * returned (see `IsRateReport`) and the new sample replaces the stored
     * one, unless the rate step raised.
     */
    method GetDiskstats(now: real, lines: seq<string>, readFile: string -> Option<string>)
      returns (r: Result<Report>)
      requires Valid()
      modifies this
      ensures Valid()
      ensures diskmap == old(diskmap) && previous == Some(now)
      ensures var s := Sample(lines, diskmap, map[], old(sectorCache), old(readLog), readFile);
        sectorCache == s.cache && readLog == s.log
      ensures var s := Sample(lines, diskmap, map[], old(sectorCache), old(readLog), readFile);
        s.rows.Err? ==> r == Err(s.rows.error) && data == old(data)
      ensures var s := Sample(lines, diskmap, map[], old(sectorCache), old(readLog), readFile);
        s.rows.Ok? && old(data) == map[] ==> r == Ok(map[]) && data == s.rows.value
      ensures var s := Sample(lines, diskmap, map[], old(sectorCache), old(readLog), readFile);
        s.rows.Ok? && old(data) != map[] ==>
          IsRateReport(r, s.rows.value, old(data), Interval(old(previous), now)) &&
          data == (if r.Ok? then s.rows.value else old(data))
    {
      var interval := 0.0;
      if previous.Some? {
        interval := now - previous.value;
      }
      previous := Some(now);
      var rows := ReadSample(lines, readFile);
      if rows.Err? {
        return Err(rows.error);
      }
      SampleConsistent(lines, diskmap, map[], old(sectorCache), old(readLog), readFile);
      if data == map[] {
        data := rows.value;
        return Ok(map[]);
      }
      r := ComputeRates(rows.value, data, interval);
      if r.Ok? {
        data := rows.value;
      }
    }
  }
}
