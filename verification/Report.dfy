/** The entities of internal/model/types.go that the modelled code reads or writes.
    `float64` fields are `real`. */
module Report {
  import opened Text

  datatype Bucket = Bucket(low: int, high: int, count: int)

  datatype Histogram = Histogram(
    name: string, unit: string, buckets: seq<Bucket>, totalCount: int,
    p50: real, p90: real, p99: real, p999: real, max: real, mean: real)

  datatype StackTrace = StackTrace(stack: string, count: int, kind: string)

  datatype Device = Device(name: string, rotational: bool, ioTimeMs: int, ioInProgress: int, avgLatencyMs: real)

  datatype TCPStats = TCPStats(timeWait: int, closeWait: int, retransRate: real)

  /** The dynamic type of `Result.Data`. */
  datatype Data =
    | NoData
    | CPUData(idlePct: real, loadAvg1: real, numCPUs: int)
    | MemoryData(totalBytes: int, availableBytes: int, swapTotalBytes: int, swapUsedBytes: int)
    | DiskData(devices: seq<Device>)
    | NetworkData(tcp: Option<TCPStats>, errorRates: seq<real>, irqDeltas: seq<int>)
    | ContainerData(runtime: string, cpuQuota: int, cpuPeriod: int, throttledTime: int, throttledPeriods: int,
                    memoryLimit: int, memoryUsage: int)
    | OtherData(tag: string)

  datatype Result = Result(
    collector: string, category: string, tier: int, data: Data, histograms: seq<Histogram>, errors: seq<string>)

  /** Report.Categories: results by category. */
  type Categories = map<string, seq<Result>>
}
