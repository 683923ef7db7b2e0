/** The server resource sampler (`erp.health.server.metrics`). The operating-system
    readings arrive as a `Probe`; sizes are already in GB. */
module ServerMetrics {
  import opened Base
  import opened Clock
  import opened History

  /** One stored sample. `hour` is the stored computed hour of the row's timestamp. */
  datatype MetricSample = MetricSample(
    cpuPercent: real,
    ramPercent: real, ramUsedGb: real, ramTotalGb: real,
    diskPercent: real, diskUsedGb: real, diskTotalGb: real,
    load1m: real, load5m: real, load15m: real,
    hour: int)

  datatype Memory = Memory(percent: real, usedGb: real, totalGb: real)

  datatype DiskUsage = DiskUsage(percent: real, usedGb: real, totalGb: real)

  /** What `getloadavg()` does: returns three averages, raises one of the exceptions the
      sampler catches (AttributeError, OSError, RuntimeError), or raises anything else. */
  datatype LoadReading =
    | LoadAverages(m1: real, m5: real, m15: real)
    | LoadUnsupported
    | LoadFailure

  /** The readings one collection sees; `None` is a reading that raised. */
  datatype Probe = Probe(
    psutilInstalled: bool,
    cpu: Option<real>,
    memory: Option<Memory>,
    diskC: Option<DiskUsage>,
    diskRoot: Option<DiskUsage>,
    load: LoadReading)

  /** The table keeps the samples with the 1000 largest ids. */
  const MaxSamples: nat := 1000

  /** `collect_metrics`: reads the probe, falls back to `/` when `C:\` cannot be read and
      to zeros when neither can, to zero load averages when they are unsupported, stores
      one sample stamped `now`, trims the table to its 1000 newest rows and returns the
      sample. A missing psutil or any other failed reading returns `None` (False) and
      leaves the table alone. */
  method CollectMetrics(table: Table<MetricSample>, probe: Probe, now: Time)
    returns (result: Option<Row<MetricSample>>)
    requires table.Valid()
    modifies table
    ensures table.Valid()
    ensures result.Some? <==>
      probe.psutilInstalled && probe.cpu.Some? && probe.memory.Some? && !probe.load.LoadFailure?
    ensures result.None? ==> table.rows == old(table.rows) && table.nextId == old(table.nextId)
    ensures result.Some? ==>
      && result.value.id == old(table.nextId)
      && result.value.time == now
      && table.rows == KeepNewest(old(table.rows) + [result.value], MaxSamples)
      && |table.rows| == Min(|old(table.rows)| + 1, MaxSamples)
      && result.value in table.rows
      && table.nextId == old(table.nextId) + 1
    ensures result.Some? ==> var m := result.value.data;
      && m.cpuPercent == probe.cpu.value
      && m.ramPercent == probe.memory.value.percent
      && m.ramUsedGb == probe.memory.value.usedGb
      && m.ramTotalGb == probe.memory.value.totalGb
      && m.hour == HourOf(now)
      && (probe.diskC.Some? ==>
            DiskUsage(m.diskPercent, m.diskUsedGb, m.diskTotalGb) == probe.diskC.value)
      && (probe.diskC.None? && probe.diskRoot.Some? ==>
            DiskUsage(m.diskPercent, m.diskUsedGb, m.diskTotalGb) == probe.diskRoot.value)
      && (probe.diskC.None? && probe.diskRoot.None? ==>
            m.diskPercent == 0.0 && m.diskUsedGb == 0.0 && m.diskTotalGb == 0.0)
      && (probe.load.LoadAverages? ==>
            m.load1m == probe.load.m1 && m.load5m == probe.load.m5 && m.load15m == probe.load.m15)
      && (probe.load.LoadUnsupported? ==>
            m.load1m == 0.0 && m.load5m == 0.0 && m.load15m == 0.0)
  {
    if !probe.psutilInstalled {
      // ImportError
      return None;
    }
    if probe.cpu.None? || probe.memory.None? {
      return None;
    }
    var cpu := probe.cpu.value;
    var ram := probe.memory.value;

    var disk := probe.diskC;
    if disk.None? {
      disk := probe.diskRoot;
    }
    var diskPercent, diskUsed, diskTotal := 0.0, 0.0, 0.0;
    if disk.Some? {
      diskPercent, diskUsed, diskTotal := disk.value.percent, disk.value.usedGb, disk.value.totalGb;
    }

    var load1, load5, load15 := 0.0, 0.0, 0.0;
    match probe.load {
      case LoadAverages(a, b, c) =>
        load1, load5, load15 := a, b, c;
      case LoadUnsupported =>
      case LoadFailure =>
        return None;
    }

    var row := table.Insert(now, MetricSample(cpu, ram.percent, ram.usedGb, ram.totalGb,
                                              diskPercent, diskUsed, diskTotal,
                                              load1, load5, load15, HourOf(now)));
    ghost var appended := table.rows;
    KeepNewestIsSuffix(appended, MaxSamples);
    table.TrimToNewest(MaxSamples);
    result := Some(row);
  }

  /** After a successful collection the sample just stored is the newest row of the
      trimmed table, so the dashboard's `id desc` lookup finds it. */
  lemma CollectedIsNewest(rows: seq<Row<MetricSample>>, sample: Row<MetricSample>)
    requires IdsIncreasing(rows)
    requires forall i :: 0 <= i < |rows| ==> rows[i].id < sample.id
    ensures KeepNewest(rows + [sample], MaxSamples) != []
    ensures Newest(KeepNewest(rows + [sample], MaxSamples)) == sample
  {
    var all := rows + [sample];
    assert IdsIncreasing(all);
    KeepNewestIsSuffix(all, MaxSamples);
    var kept := KeepNewest(all, MaxSamples);
    NewestIsLast(kept);
  }
}
