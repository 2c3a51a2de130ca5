# ziostat in Dafny

A model of `ziostat.py`, a small Python 2 monitor that prints per-second I/O
rates for the block devices behind ZFS volumes (zvols). The model covers the
`ZIOStat` engine and the `pretty_number` helper:

- `get_disks` builds the device map. It reads every symbolic link under
  /dev/zvol/, takes the last path component of the link's target as the
  kernel device name, and skips partitions (a name whose second-to-last
  character is `p` and whose last is a digit). It maps every other name to
  the link path minus its first ten characters.
- `get_sector_size` is memoised. It returns the cached hardware sector size
  of a device, or reads and caches the integer in
  /sys/block/<device>/queue/hw_sector_size.
- `get_diskstats` stores the timestamp. It then turns every line of
  /proc/diskstats that names a mapped device into a row: the numeric fields
  converted with `int()`, the volume name attached, and sectors converted to
  bytes.
  - While the stored sample is empty, a call stores the new sample and
    returns an empty report.
  - Otherwise the call returns, for every device present in both the new and the
    stored sample, the identity and latency columns of the new row and
    `(new - old) / interval` for the eight other columns. A `total` row sums
    those rates. The new sample then replaces the stored one.
- `pretty_number` divides the number repeatedly by 1024, rounding down,
  until it is below 1024. It returns the divided number right-aligned in
  eight characters, followed by the suffix of that many divisions (`''`,
  `K`, `M`, `G`, `T`, `P` or `E`).

The model is in five modules:

- `Wrappers`: Option, and results carrying one of the Python exceptions the
  code can raise.
- `PyStr`: the Python 2 byte-string builtins used: `split()`, `strip()`,
  `isdigit()`, `int()` and `"%8d"`.
- `Diskstats`: reading one sample, as pure functions over the lines, the
  sector-size cache and the sector-size files.
- `Rates`: the rate report.
- `Ziostat`: the device map, `pretty_number` and the `ZIOStat` class.

The class keeps the source's fields (`diskmap`, `sector_cache`, `data`,
`previous`) and updates them in place. Each method is proved against the
functions in `Diskstats`, `Rates` and `Ziostat`.

Exceptions are values, not preconditions. The model records every path
where the source raises:

- KeyError: a line without a `name`, `read_sectors` or `write_sectors` field.
- ValueError: a field `int()` rejects, or a sector-size file that holds no
  integer.
- IOError: a sector-size file that cannot be opened.
- IndexError: a link whose leaf name is shorter than two characters.
- ZeroDivisionError: an interval of zero while a sample is stored and some
  device is in both samples.

State the source has already changed when an exception is raised stays
changed:

- The timestamp is stored before the sample is read.
- Sector sizes cached before a failing line stay cached.

Inputs the program gets from the system are parameters:

- the `(path, readlink target)` pairs under /dev/zvol/, as `Link` values;
- the lines of /proc/diskstats;
- a function from a path to the file's contents, or None when the file
  cannot be opened;
- the current time, as seconds in a `real`.

The ghost field `readLog` records every sector-size file the engine tries
to open, in order, whether or not the open succeeds, so the contracts can
say when the cache spares a read.

Where a monitor might be expected to degrade gracefully, the code does not,
and the model follows the code:

- These all raise out of `get_diskstats`: a line with fewer than three
  fields, a malformed line that names a mapped device, a failed sector-size
  read, and a zero interval while a sample is stored and some device is in
  both samples. The code does not skip the line, drop the device or fall
  back to a minimum interval. A line with three or more fields that names
  an unmapped device is skipped, however malformed its other fields are.
- A device that is in both samples but whose counters went down gets a
  negative rate.
- A device called `total` would be overwritten by the total row.
- The partition test matches only a single trailing digit, so a name such
  as `zd0p10` is kept as a volume.
- The four trailing columns (`writes_total_time` to `io_weighted_time`) are
  optional. A line with 10 to 13 fields is accepted and gives a row without
  them; the source's `zip` simply stops early.

## Model

| member | source | states |
|---|---|---|
| PyStr.WordsAppend | ziostat.py:60 | `split()` of text followed by text that starts with whitespace (or nothing) is the words of the first part followed by the words of the second |
| PyStr.WordsUnwords | ziostat.py:60 | `split()` of words joined by single spaces gives back exactly those words |
| PyStr.LStrip | ziostat.py:46 | `lstrip()` gives a suffix of the input that starts with no whitespace, and every character cut is whitespace |
| PyStr.RStrip | ziostat.py:46 | `rstrip()` gives a prefix of the input that ends with no whitespace, and every character cut is whitespace |
| PyStr.DecimalRoundTrip | ziostat.py:67 | `int()` of the decimal text of any integer, negative numbers included, gives that integer |
| PyStr.FormatIntRoundTrip | ziostat.py:18 | `"%8d"` text is exactly eight characters when the number fits, longer otherwise, and reading it back with `int(s.strip())` gives the number |
| Diskstats.Fields | ziostat.py:60 | zipping against the fourteen column names keeps at most fourteen fields |
| Diskstats.ValuesRoundTrip | ziostat.py:64-67 | fields holding the decimal text of integers, with any text in the `name` field, pass `int()` and convert back to exactly those integers |
| Diskstats.ConvertFields | ziostat.py:64-67 | the conversion loop succeeds exactly when every non-name field is an integer, and then yields those integers; otherwise it raises ValueError (None) |
| Diskstats.SectorLookupFacts | ziostat.py:43-48 | a cached size is returned without reading a file; otherwise the device's own file is read once; on success the value read is cached and returned, the cache changes by that entry only, and the file's stripped text parses to it; a file that does not open gives IOError with its path; a file without an integer gives ValueError; on error the cache is unchanged |
| Diskstats.SampleLineFacts | ziostat.py:59-72 | one line only extends the cache and appends to the read log; it is skipped exactly when it names an unmapped device; a line without a name raises KeyError('name'); a parsed line has 10 to 14 fields, all numeric except `name`, names a mapped device, and gives the row of its integers, its volume name and its cached sector size |
| Diskstats.SampleLineOneRead | ziostat.py:70-71 | one line reads at most one sector-size file although it looks the size up twice: it reads nothing, or its device was not cached and it reads that device's file once |
| Diskstats.SampleGrows | ziostat.py:58-72 | reading a sample never drops or changes a cached sector size, and only appends to the read log |
| Diskstats.SampleConsistent | ziostat.py:69-72 | every row of a completed sample is keyed by its device name and belongs to a mapped device. It carries that device's volume name, and `read_bytes`/`write_bytes` equal `read_sectors`/`write_sectors` times the device's cached sector size |
| Diskstats.SampleKeys | ziostat.py:61-62 | a completed sample holds exactly one row per mapped device named by some line, and no other |
| Diskstats.SampleUntouched | ziostat.py:72 | a row collected earlier survives unchanged when no later line names its device |
| Diskstats.SampleLastLineWins | ziostat.py:72 | the row of a device in a completed sample is built from the last line that names it |
| Diskstats.ExtraFieldsIgnored | ziostat.py:60 | a line that already holds fourteen fields is read exactly the same whatever follows it after whitespace: more columns, padding, the trailing newline |
| Rates.SumRatesPick | ziostat.py:86-88 | the total does not depend on the order in which the devices are visited |
| Rates.SumRatesInsert | ziostat.py:86-88 | adding one more device's rates to the total adds them column by column |
| Rates.RateReportUnique | ziostat.py:76-91 | the report is determined by the two samples and the interval, whatever the dictionary iteration order |
| Rates.ComputeRates | ziostat.py:76-91 | the report has an entry for exactly the devices in both samples, plus `total`. Each device entry has its new pass-through columns and `(new - old) / interval` for every rate column. `total` holds the column sums, or no rate columns when no device is in both. The result is ZeroDivisionError when the interval is zero and some device is in both samples |
| Rates.TotalIsSumOfDevices | ziostat.py:86-91 | when no device is called `total`, the total row equals, column by column, the sum of the rates of the device rows of the report |
| Ziostat.LeafIsLastComponent | ziostat.py:37 | `split('/')[-1]` is the longest suffix without a slash, preceded by a slash when shorter than the whole |
| Ziostat.DiskMapFails | ziostat.py:36-38 | building the map fails exactly when some link's leaf name is shorter than two characters, and then with IndexError |
| Ziostat.DiskMapKeys | ziostat.py:35-41 | the keys are exactly the leaf names of the links that are not partitions; no key is a partition name |
| Ziostat.DiskMapLastLinkWins | ziostat.py:35-41 | a device maps to the volume name (the path minus its first ten characters) of the last link that resolves to it |
| Ziostat.ShrinkBelow | ziostat.py:16-19 | after `k` floor divisions by 1024 the number is below a bound exactly when it was below the bound times 1024^k |
| Ziostat.PrettyNumber | ziostat.py:14-19 | the result uses the first scale at which the divided number is below 1024, which is the scale `k` with 1024^k <= num < 1024^(k+1), rendered as `%8d` plus the suffix; there is no result exactly when num >= 1024^7 |
| Ziostat.ZIOStat.Create | ziostat.py:23-28 | construction fails with IndexError exactly when building the device map does; otherwise the object holds that map, an empty cache, no stored sample and no timestamp |
| Ziostat.ZIOStat.GetDisks | ziostat.py:30-41 | the device map becomes the one built from the links, with no partition keys, or stays as it was when building raises IndexError |
| Ziostat.ZIOStat.GetSectorSize | ziostat.py:43-48 | the returned size, the new cache and the new read log are those of the memoised lookup, and the stored rows stay consistent with the cache |
| Ziostat.ZIOStat.ReadSectorSize | ziostat.py:45-47 | the uncached lookup: opens the device's file, records the read, and caches and returns the integer it holds, or raises IOError/ValueError |
| Ziostat.ZIOStat.ReadLine | ziostat.py:60-72 | one pass of the line loop gives the outcome, cache and read log that `SampleLine` specifies |
| Ziostat.ZIOStat.ReadBytes | ziostat.py:70-71 | the byte counts of a converted line: KeyError for a missing sector field, otherwise two memoised lookups, the second served by the cache (see Diskstats.SampleLineOneRead) |
| Ziostat.ZIOStat.ReadSample | ziostat.py:58-72 | the loop over the lines gives the sample, cache and read log that `Sample` specifies, stopping at the first exception |
| Ziostat.ZIOStat.GetDiskstats | ziostat.py:50-93 | the timestamp is always stored first. An exception while sampling leaves the stored sample unchanged. With no stored sample the new one is stored and the report is empty. Otherwise the report is the rate report over `now - previous`, and the new sample replaces the stored one unless that raised. The device map is never changed |

## Left out

- The command line (`__main__`, lines 95-116) is not modelled: the header,
  the per-device print loop, the percentages of the total, the one-second
  sleep and the `----` separator.
- `get_output` and the `find /dev/zvol/ -type l` process it runs are not
  modelled. Neither is `os.readlink` or reading files: the links, the
  diskstats lines and the file contents are inputs.
- Errors `find`, `os.readlink` or `open('/proc/diskstats')` could raise are
  not modelled.
- `datetime.now()` is not modelled: the current time is an input in
  seconds, exact to any precision.
- Ziostat.PrettyNumber: takes an integer. The command line passes it
  floating-point rates, whose `%8d` truncation and float division are not
  modelled.
- Rates.ComputeRates: computes rates and the total in exact reals, not
  floating point, so rounding and the order of summation do not show.
- Rates.ComputeRates: the order in which Python 2 iterates a dictionary is
  not modelled. The report is defined by its contents, and
  Rates.RateReportUnique shows the contents do not depend on that order.
- PyStr.ParseInt is Python 2 `int()` on text without surrounding whitespace:
  an optional sign, then decimal digits. Fields produced by `split()` never
  carry whitespace, and a sector-size file is stripped before it is parsed.
  CPython 2 also skips whitespace between the sign and the digits, so a
  sector-size file holding `- 512` reads as -512 there; PyStr.ParseInt
  rejects it and the model raises ValueError. `int(s)` reads base 10 only, and a value too large
  for `int` becomes a `long` of the same value, as the model's unbounded
  integers give.
- Diskstats.Fields: the `strip()` before `split()` on each line is not
  modelled separately, because `split()` already ignores leading and
  trailing whitespace. Diskstats.ExtraFieldsIgnored states what the
  truncation to fourteen fields does.
