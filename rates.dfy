/**
 * The rate step of `ZIOStat.get_diskstats`: for every device present in both
 * the new and the stored sample, the identity and latency columns are passed
 * through and every other column becomes `(new - old) / interval`; the rates
 * are summed into a row under the key "total".
 */
module Rates {
  import opened Wrappers
  import opened Diskstats

  /** The eight rate-eligible columns, as exact reals. */
  datatype Rates = Rates(
    readsCompleted: real, readsMerged: real, readSectors: real,
    writesCompleted: real, writesMerged: real, writeSectors: real,
    readBytes: real, writeBytes: real)

  const ZERO: Rates := Rates(0.0, 0.0, 0.0, 0.0, 0.0, 0.0, 0.0, 0.0)

  /** Column-wise sum, as `total[field] += val`. */
  function Add(a: Rates, b: Rates): Rates {
    Rates(a.readsCompleted + b.readsCompleted, a.readsMerged + b.readsMerged,
          a.readSectors + b.readSectors, a.writesCompleted + b.writesCompleted,
          a.writesMerged + b.writesMerged, a.writeSectors + b.writeSectors,
          a.readBytes + b.readBytes, a.writeBytes + b.writeBytes)
  }

  /** The per-second change of each rate-eligible column; a counter that went down gives a negative rate. */
  function Delta(n: Row, o: Row, interval: real): Rates
    requires interval != 0.0
  {
    Rates((n.readsCompleted - o.readsCompleted) as real / interval,
          (n.readsMerged - o.readsMerged) as real / interval,
          (n.readSectors - o.readSectors) as real / interval,
          (n.writesCompleted - o.writesCompleted) as real / interval,
          (n.writesMerged - o.writesMerged) as real / interval,
          (n.writeSectors - o.writeSectors) as real / interval,
          (n.readBytes - o.readBytes) as real / interval,
          (n.writeBytes - o.writeBytes) as real / interval)
  }

  /** A device's entry in the report: the nine pass-through columns and the rates. */
  datatype RateRow = RateRow(
    major: int, minor: int, name: string, zvol: string,
    readsTotalTime: int, writesTotalTime: Option<int>,
    ioPending: Option<int>, ioTotalTime: Option<int>, ioWeightedTime: Option<int>,
    rates: Rates)

  /** The pass-through columns come from the new row only. */
  function MakeRateRow(n: Row, o: Row, interval: real): RateRow
    requires interval != 0.0
  {
    RateRow(n.major, n.minor, n.name, n.zvol, n.readsTotalTime, n.writesTotalTime,
            n.ioPending, n.ioTotalTime, n.ioWeightedTime, Delta(n, o, interval))
  }

  /**
   * An entry of the report: a device, or the total row. The total row has no
   * rate columns at all when no device was reported.
   */
  datatype Entry = Device(row: RateRow) | Total(zvol: string, sums: Option<Rates>)

  type Report = map<string, Entry>

  /** The sum of the rates in a map. */
  ghost function SumRates(m: map<string, Rates>): Rates
    decreases |m|
  {
    if m == map[] then ZERO
    else
      var d :| d in m;
      Add(m[d], SumRates(m - {d}))
  }

  /** The sum does not depend on the order the entries are taken in. */
  lemma {:induction false} SumRatesPick(m: map<string, Rates>, e: string)
    requires e in m
    ensures SumRates(m) == Add(m[e], SumRates(m - {e}))
    decreases |m|
  {
    var d :| d in m && SumRates(m) == Add(m[d], SumRates(m - {d}));
    if d != e {
      var rest := (m - {d}) - {e};
      SumRatesPick(m - {d}, e);
      SumRatesPick(m - {e}, d);
      assert rest == (m - {e}) - {d};
      assert SumRates(m) == Add(m[d], Add(m[e], SumRates(rest)));
      assert SumRates(m - {e}) == Add(m[d], SumRates(rest));
    }
  }

  /** Adding one device's rates adds them to the sum. */
  lemma SumRatesInsert(m: map<string, Rates>, d: string, v: Rates)
    requires d !in m
    ensures SumRates(m[d := v]) == Add(SumRates(m), v)
  {
    SumRatesPick(m[d := v], d);
    assert m[d := v] - {d} == m;
  }

  /** The rates of the devices of `keys` present in both samples. */
  function Deltas(newdata: map<string, Row>, olddata: map<string, Row>, interval: real,
                  keys: set<string>): map<string, Rates>
    requires interval != 0.0
  {
    map d | d in keys && d in newdata && d in olddata :: Delta(newdata[d], olddata[d], interval)
  }

  /** Adding a device present in both samples adds its rates to the sum. */
  lemma DeltasInsert(newdata: map<string, Row>, olddata: map<string, Row>, interval: real,
                     keys: set<string>, d: string)
    requires interval != 0.0 && d in newdata && d in olddata && d !in keys
    ensures SumRates(Deltas(newdata, olddata, interval, keys + {d})) ==
            Add(SumRates(Deltas(newdata, olddata, interval, keys)), Delta(newdata[d], olddata[d], interval))
  {
    var before := Deltas(newdata, olddata, interval, keys);
    assert Deltas(newdata, olddata, interval, keys + {d}) == before[d := Delta(newdata[d], olddata[d], interval)];
    SumRatesInsert(before, d, Delta(newdata[d], olddata[d], interval));
  }

  /**
   * `r` is what the rate step returns for the two samples: ZeroDivisionError
   * when the interval is zero and some device is in both samples; otherwise
   * an entry for exactly the devices in both samples, each with its new
   * pass-through columns and its rates, and under "total" (which replaces a
   * device of that name) the sum of all their rates.
   */
  ghost predicate IsRateReport(r: Result<Report>, newdata: map<string, Row>,
                               olddata: map<string, Row>, interval: real)
  {
    var both := newdata.Keys * olddata.Keys;
    if interval == 0.0 && both != {} then r == Err(ZeroDivisionError)
    else
      r.Ok? && r.value.Keys == both + {"total"} &&
      (forall d :: d in newdata && d in olddata && d != "total" ==>
         r.value[d] == Device(MakeRateRow(newdata[d], olddata[d], interval))) &&
      r.value["total"] ==
        Total("total", if both == {} then None else Some(SumRates(Deltas(newdata, olddata, interval, newdata.Keys))))
  }

  /** The report is determined by the two samples and the interval. */
  lemma RateReportUnique(r1: Result<Report>, r2: Result<Report>, newdata: map<string, Row>,
                         olddata: map<string, Row>, interval: real)
    requires IsRateReport(r1, newdata, olddata, interval)
    requires IsRateReport(r2, newdata, olddata, interval)
    ensures r1 == r2
  {
    if r1.Ok? {
      assert r1.value.Keys == r2.value.Keys;
      forall d | d in r1.value
        ensures r1.value[d] == r2.value[d]
      {
      }
      assert r1.value == r2.value;
    }
  }

  /**
   * The loops of `get_diskstats` over the new sample: the pass-through or
   * rate of every column of every device also in the stored sample, and the
   * running total.
   */
  method ComputeRates(newdata: map<string, Row>, olddata: map<string, Row>, interval: real)
    returns (r: Result<Report>)
    ensures IsRateReport(r, newdata, olddata, interval)
  {
    var out: Report := map[];
    var sum := ZERO;
    var todo := newdata.Keys;
    while todo != {}
      invariant todo <= newdata.Keys
      invariant out.Keys == (newdata.Keys - todo) * olddata.Keys
      invariant out != map[] ==> interval != 0.0
      invariant forall d :: d in out ==>
        interval != 0.0 && out[d] == Device(MakeRateRow(newdata[d], olddata[d], interval))
      invariant out != map[] ==> sum == SumRates(Deltas(newdata, olddata, interval, out.Keys))
      invariant out == map[] ==> sum == ZERO
      decreases todo
    {
      var d :| d in todo;
      todo := todo - {d};
      if d in olddata {
        if interval == 0.0 {
          assert d in newdata.Keys * olddata.Keys;
          return Err(ZeroDivisionError);
        }
        ghost var keys := out.Keys;
        if out == map[] {
          assert Deltas(newdata, olddata, interval, keys) == map[];
        }
        DeltasInsert(newdata, olddata, interval, keys, d);
        sum := Add(sum, Delta(newdata[d], olddata[d], interval));
        out := out[d := Device(MakeRateRow(newdata[d], olddata[d], interval))];
        assert out.Keys == keys + {d};
      }
    }
    if out != map[] {
      assert Deltas(newdata, olddata, interval, out.Keys) == Deltas(newdata, olddata, interval, newdata.Keys);
    }
    var total := if out == map[] then None else Some(sum);
    out := out["total" := Total("total", total)];
    r := Ok(out);
  }

  /**
   * When no device is called "total", the total row holds, column by column,
   * the sum of the rates of the devices in the report.
   */
  lemma TotalIsSumOfDevices(r: Result<Report>, newdata: map<string, Row>,
                            olddata: map<string, Row>, interval: real)
    requires IsRateReport(r, newdata, olddata, interval) && r.Ok?
    requires "total" !in newdata.Keys * olddata.Keys
    ensures var devices := r.value.Keys - {"total"};
      (forall d :: d in devices ==> r.value[d].Device?) &&
      r.value["total"] == Total("total", if devices == {} then None
        else Some(SumRates(map d | d in devices && r.value[d].Device? :: r.value[d].row.rates)))
  {
    var devices := r.value.Keys - {"total"};
    assert devices == newdata.Keys * olddata.Keys;
    if devices != {} {
      assert (map d | d in devices && r.value[d].Device? :: r.value[d].row.rates) ==
             Deltas(newdata, olddata, interval, newdata.Keys);
    }
  }
}
