/** The records the analysis produces: entries, statistics, alerts and clusters. */
module LogTypes {
  import opened Wrappers

  datatype Level = Debug | Info | Warn | Error | Fatal | Unknown

  const AllLevels: seq<Level> := [Debug, Info, Warn, Error, Fatal, Unknown]

  /** The level's name as the source spells it. */
  function LevelName(l: Level): string {
    match l
    case Debug => "DEBUG"
    case Info => "INFO"
    case Warn => "WARN"
    case Error => "ERROR"
    case Fatal => "FATAL"
    case Unknown => "UNKNOWN"
  }

  /** One timestamped line: `ts` in epoch milliseconds, `tsText` the matched prefix. */
  datatype LogEntry = LogEntry(ts: int, tsText: string, source: string, level: Level, message: string, raw: string)

  /** A histogram bar: `count` entries in the minute starting at `t` milliseconds. */
  datatype MinuteBucket = MinuteBucket(t: int, count: nat)

  datatype Stats = Stats(byLevel: map<Level, nat>, byMinute: seq<MinuteBucket>)

  /** A flagged entry. `primary` is optional in the record type, although every alert built sets it. */
  datatype AlertEntry = AlertEntry(entry: LogEntry, reasons: seq<string>, score: int, severity: int, primary: Option<string>)

  datatype Cluster = Cluster(key: string, startTs: int, endTs: int, count: nat, alerts: seq<AlertEntry>)

  datatype AnalyzeResult = AnalyzeResult(entries: seq<LogEntry>, stats: Stats, alerts: seq<AlertEntry>, clusters: seq<Cluster>)

  function EntryTs(e: LogEntry): int { e.ts }

  function AlertTs(a: AlertEntry): int { a.entry.ts }

  function ClusterStart(c: Cluster): int { c.startTs }
}
