/**
 * `analyzeWithSettings`: the per-source clock shift, the statistics, the
 * scoring of every entry against the compiled rules, and the clusters of
 * alerts, composed into one result.
 */
module Analysis {
  import opened Wrappers
  import opened LogTypes
  import opened Runtime
  import opened Settings
  import opened RuleCompiler
  import opened Scoring
  import opened Statistics
  import opened Clustering
  import Seqs

  // ---------------------------------------------------------------------------
  // Per-source clock offsets

  /** The offset in minutes configured for a source; an absent source counts as 0. */
  function OffsetOf(tz: map<string, int>, source: string): int {
    if source in tz then tz[source] else 0
  }

  /**
   * The adjustment of one entry: a non-zero offset moves `ts` by that many
   * minutes, a zero one returns the entry itself. Nothing but `ts` changes.
   */
  function Shift(e: LogEntry, tz: map<string, int>): (r: LogEntry)
    ensures r.(ts := e.ts) == e
    ensures r.ts - e.ts == OffsetOf(tz, e.source) * MinuteMs
  {
    var off := OffsetOf(tz, e.source);
    if off != 0 then e.(ts := e.ts + off * MinuteMs) else e
  }

  /**
   * `entries.map(...)`: a new sequence of the same length in which the entry
   * at each position is the input's entry there, moved in time by its
   * source's offset in minutes and otherwise unchanged.
   */
  function ShiftAll(entries: seq<LogEntry>, tz: map<string, int>): (r: seq<LogEntry>)
    ensures |r| == |entries|
    ensures forall i :: 0 <= i < |entries| ==>
      r[i].(ts := entries[i].ts) == entries[i] && r[i].ts - entries[i].ts == OffsetOf(tz, entries[i].source) * MinuteMs
  {
    seq(|entries|, i requires 0 <= i < |entries| => Shift(entries[i], tz))
  }

  /** A source without an offset, or with offset 0, keeps its entries exactly as parsed. */
  lemma ShiftUnchanged(e: LogEntry, tz: map<string, int>)
    ensures Shift(e, tz) == e <==> (e.source !in tz || tz[e.source] == 0)
  {
  }

  /** The offsets with their signs reversed. */
  function Negated(tz: map<string, int>): (r: map<string, int>)
    ensures r.Keys == tz.Keys && forall k :: k in tz ==> r[k] == -tz[k]
  {
    map k | k in tz :: -tz[k]
  }

  /** Shifting by the reversed offsets undoes a shift, so no information is lost. */
  lemma ShiftInverse(e: LogEntry, tz: map<string, int>)
    ensures Shift(Shift(e, tz), Negated(tz)) == e
  {
    var once := Shift(e, tz);
    assert once.source == e.source;
  }

  /** The default settings configure no offsets, so the entries pass through unchanged. */
  lemma ShiftAllNoOffsets(entries: seq<LogEntry>)
    ensures ShiftAll(entries, map[]) == entries
  {
  }

  // ---------------------------------------------------------------------------
  // The whole analysis

  /** The cluster window in milliseconds: `windowSec`, or 10 seconds when it is absent. */
  function WindowMs(c: ClusterSettings): int {
    c.windowSec.GetOr(10) * 1000
  }

  /** `Object.values(settings.rules)` with every rule whose pattern compiles. */
  function Compiled(settings: AnalyzerSettings, engine: RegexEngine): seq<CompiledRule> {
    CompileRules(RuleValues(settings.rules), engine)
  }

  /** Every alert the scoring builds names its first reason as primary, so `keyFn` never falls back to `unknown`. */
  lemma PrimaryAlwaysSet(a: AlertEntry, compiled: seq<CompiledRule>, engine: RegexEngine)
    requires AlertFor(a.entry, compiled, engine) == Some(a)
    ensures |a.reasons| >= 1 && a.primary == Some(a.reasons[0])
    ensures KeyOf(a, ByReason) == a.reasons[0]
    ensures KeyOf(a, BySourceReason) == a.entry.source + "::" + a.reasons[0]
  {
    AlertShape(a.entry, compiled, engine);
  }

  /**
   * `analyzeWithSettings(entries, settings)`. The result holds the adjusted
   * entries in stable time order with their statistics; one alert per
   * flagged entry, in that order; and the alerts cut into clusters that
   * partition them, share a key, respect the window and are ordered by start.
   */
  method AnalyzeWithSettings(entries: seq<LogEntry>, settings: AnalyzerSettings, engine: RegexEngine)
    returns (res: AnalyzeResult)
    ensures var adjusted := ShiftAll(entries, settings.tzOffsetsMinute);
      && Seqs.SortedBy(res.entries, EntryTs) && multiset(res.entries) == multiset(adjusted)
      && (forall k :: Seqs.WithKey(res.entries, EntryTs, k) == Seqs.WithKey(adjusted, EntryTs, k))
      && (forall l :: l in res.stats.byLevel && res.stats.byLevel[l] == Seqs.CountWhere(adjusted, LevelIs(l)))
      && HistogramOf(res.stats.byMinute, adjusted) && SumCounts(res.stats.byMinute) == |entries|
    ensures Seqs.Corresponds(res.alerts, res.entries, AlertTest(Compiled(settings, engine), engine), AlertOf(Compiled(settings, engine), engine))
    ensures Seqs.SortedBy(res.alerts, AlertTs)
    ensures forall a :: a in res.alerts ==> a.primary == Some(a.reasons[0])
    ensures Seqs.SortedBy(res.clusters, ClusterStart)
    ensures multiset(Flatten(res.clusters)) == multiset(res.alerts)
    ensures forall c :: c in res.clusters ==> ClusterOf(c, settings.cluster.groupBy, WindowMs(settings.cluster))
    ensures SameKeyApart(res.clusters, WindowMs(settings.cluster))
  {
    var adjusted := ShiftAll(entries, settings.tzOffsetsMinute);
    var sorted, levels, byMinute := AnalyzeCore(adjusted);
    var compiled := Compiled(settings, engine);
    var alerts := ScoreEntries(sorted, compiled, engine);
    AlertsInEntryOrder(alerts, sorted, compiled, engine);
    forall a | a in alerts ensures a.primary == Some(a.reasons[0]) {
      var i :| 0 <= i < |alerts| && alerts[i] == a;
      PrimaryAlwaysSet(a, compiled, engine);
    }
    var clusters := BuildClusters(alerts, settings.cluster.groupBy, WindowMs(settings.cluster));
    res := AnalyzeResult(sorted, Stats(levels, byMinute), alerts, clusters);
  }
}
