/**
 * `analyzeCore`: the entries ordered by time, the count per level and the
 * per-minute histogram.
 */
module Statistics {
  import opened Wrappers
  import opened LogTypes
  import Seqs

  const MinuteMs := 60000

  /** `Math.floor(ts / 60000) * 60000`: the start of the minute holding `ts`. */
  function Minute(ts: int): (m: int)
    ensures m % MinuteMs == 0 && m <= ts < m + MinuteMs
  {
    (ts / MinuteMs) * MinuteMs
  }

  lemma MinuteMonotone(a: int, b: int)
    requires a <= b
    ensures Minute(a) <= Minute(b)
  {
    assert a / MinuteMs <= b / MinuteMs;
  }

  function LevelIs(l: Level): LogEntry -> bool {
    (e: LogEntry) => e.level == l
  }

  function InMinute(t: int): LogEntry -> bool {
    (e: LogEntry) => Minute(e.ts) == t
  }

  // ---------------------------------------------------------------------------
  // Level counts

  /** The six counters every result carries, all starting at zero. */
  const ZeroLevels: map<Level, nat> := map[Debug := 0, Info := 0, Warn := 0, Error := 0, Fatal := 0, Unknown := 0]

  /** Every entry has exactly one level, so the six counts add up to the number of entries. */
  lemma {:induction false} LevelCountsSum(s: seq<LogEntry>)
    ensures Seqs.CountWhere(s, LevelIs(Debug)) + Seqs.CountWhere(s, LevelIs(Info))
      + Seqs.CountWhere(s, LevelIs(Warn)) + Seqs.CountWhere(s, LevelIs(Error))
      + Seqs.CountWhere(s, LevelIs(Fatal)) + Seqs.CountWhere(s, LevelIs(Unknown)) == |s|
  {
    if s != [] {
      LevelCountsSum(s[..|s| - 1]);
    }
  }

  // ---------------------------------------------------------------------------
  // Minute histogram

  /** `bucket.get(m)`: where the bar for minute `m` sits, if there is one. */
  function BarOf(bs: seq<MinuteBucket>, m: int): (r: Option<nat>)
    ensures r.Some? ==> (r.value < |bs| && bs[r.value].t == m
      && forall j :: 0 <= j < r.value ==> bs[j].t != m)
    ensures r.None? ==> forall j :: 0 <= j < |bs| ==> bs[j].t != m
  {
    if bs == [] then None
    else if bs[0].t == m then Some(0)
    else match BarOf(bs[1..], m)
      case Some(i) => Some(i + 1)
      case None => None
  }

  /**
   * `bucket.set(m, (bucket.get(m) ?? 0) + 1)` on a map kept in insertion
   * order: an existing bar grows where it stands, a new minute is appended.
   */
  function Bump(bs: seq<MinuteBucket>, m: int): seq<MinuteBucket> {
    match BarOf(bs, m)
    case Some(i) => bs[i := MinuteBucket(m, bs[i].count + 1)]
    case None => bs + [MinuteBucket(m, 1)]
  }

  /** The map after the loop has seen the entries of `s`, in order. */
  function Histogram(s: seq<LogEntry>): seq<MinuteBucket> {
    if s == [] then [] else Bump(Histogram(s[..|s| - 1]), Minute(s[|s| - 1].ts))
  }

  function SumCounts(bs: seq<MinuteBucket>): nat {
    if bs == [] then 0 else SumCounts(bs[..|bs| - 1]) + bs[|bs| - 1].count
  }

  function BarStart(b: MinuteBucket): int { b.t }

  predicate DistinctBars(bs: seq<MinuteBucket>) {
    forall i, j :: 0 <= i < j < |bs| ==> bs[i].t != bs[j].t
  }

  predicate IncreasingBars(bs: seq<MinuteBucket>) {
    forall i, j :: 0 <= i < j < |bs| ==> bs[i].t < bs[j].t
  }

  /** Each bar starts on a minute boundary and counts the (one or more) entries of `s` in its minute. */
  predicate BarsCount(bs: seq<MinuteBucket>, s: seq<LogEntry>) {
    forall i :: 0 <= i < |bs| ==>
      bs[i].t % MinuteMs == 0 && bs[i].count > 0 && bs[i].count == Seqs.CountWhere(s, InMinute(bs[i].t))
  }

  /** Every entry's minute has a bar. */
  predicate BarsCover(bs: seq<MinuteBucket>, s: seq<LogEntry>) {
    forall j :: 0 <= j < |s| ==> exists i :: 0 <= i < |bs| && bs[i].t == Minute(s[j].ts)
  }

  /**
   * `bs` is the histogram of `s`: one bar per minute that holds an entry,
   * each counting the entries of that minute, in increasing order of minute.
   */
  predicate HistogramOf(bs: seq<MinuteBucket>, s: seq<LogEntry>) {
    IncreasingBars(bs) && BarsCount(bs, s) && BarsCover(bs, s)
  }

  lemma SumCountsUpdate(bs: seq<MinuteBucket>, i: nat, b: MinuteBucket)
    requires i < |bs|
    ensures SumCounts(bs[i := b]) + bs[i].count == SumCounts(bs) + b.count
  {
    if i < |bs| - 1 {
      var n := |bs| - 1;
      assert bs[i := b][..n] == bs[..n][i := b];
      SumCountsUpdate(bs[..n], i, b);
    } else {
      assert bs[i := b][..|bs| - 1] == bs[..|bs| - 1];
    }
  }

  lemma SumCountsAppend(bs: seq<MinuteBucket>, b: MinuteBucket)
    ensures SumCounts(bs + [b]) == SumCounts(bs) + b.count
  {
    assert (bs + [b])[..|bs|] == bs;
  }

  /** A bump keeps every bar's minute, adds at most one bar, and leaves a bar for `m`. */
  lemma BumpShape(bs: seq<MinuteBucket>, m: int)
    ensures var r := Bump(bs, m);
      && |bs| <= |r| <= |bs| + 1
      && (forall k :: 0 <= k < |bs| ==> r[k].t == bs[k].t)
      && (|r| == |bs| + 1 ==> r[|bs|] == MinuteBucket(m, 1) && BarOf(bs, m).None?)
      && (exists i :: 0 <= i < |r| && r[i].t == m)
  {
    match BarOf(bs, m)
    case Some(i) => assert Bump(bs, m)[i].t == m;
    case None => assert Bump(bs, m)[|bs|].t == m;
  }

  lemma BumpSum(bs: seq<MinuteBucket>, m: int)
    ensures SumCounts(Bump(bs, m)) == SumCounts(bs) + 1
  {
    match BarOf(bs, m)
    case Some(i) => SumCountsUpdate(bs, i, MinuteBucket(m, bs[i].count + 1));
    case None => SumCountsAppend(bs, MinuteBucket(m, 1));
  }

  lemma BumpDistinct(bs: seq<MinuteBucket>, m: int)
    requires DistinctBars(bs)
    ensures DistinctBars(Bump(bs, m))
  {
    BumpShape(bs, m);
  }

  lemma CountStep(s: seq<LogEntry>, x: LogEntry, t: int)
    ensures Seqs.CountWhere(s + [x], InMinute(t)) == Seqs.CountWhere(s, InMinute(t)) + (if Minute(x.ts) == t then 1 else 0)
  {
    assert (s + [x])[..|s|] == s;
  }

  lemma BumpCovers(bs: seq<MinuteBucket>, s: seq<LogEntry>, x: LogEntry)
    requires BarsCover(bs, s)
    ensures BarsCover(Bump(bs, Minute(x.ts)), s + [x])
  {
    var r := Bump(bs, Minute(x.ts));
    BumpShape(bs, Minute(x.ts));
    forall j | 0 <= j < |s + [x]| ensures exists i :: 0 <= i < |r| && r[i].t == Minute((s + [x])[j].ts) {
      if j < |s| {
        var i :| 0 <= i < |bs| && bs[i].t == Minute(s[j].ts);
        assert r[i].t == bs[i].t;
      }
    }
  }

  lemma BumpCounts(bs: seq<MinuteBucket>, s: seq<LogEntry>, x: LogEntry)
    requires DistinctBars(bs) && BarsCount(bs, s) && BarsCover(bs, s)
    ensures BarsCount(Bump(bs, Minute(x.ts)), s + [x])
  {
    var m := Minute(x.ts);
    var r := Bump(bs, m);
    forall t ensures Seqs.CountWhere(s + [x], InMinute(t)) == Seqs.CountWhere(s, InMinute(t)) + (if m == t then 1 else 0) {
      CountStep(s, x, t);
    }
    if BarOf(bs, m).None? {
      Seqs.CountZero(s, InMinute(m));
      forall j | 0 <= j < |s| ensures !InMinute(m)(s[j]) {
        var i :| 0 <= i < |bs| && bs[i].t == Minute(s[j].ts);
      }
      assert r == bs + [MinuteBucket(m, 1)];
    }
  }

  /** The map the loop builds is a histogram of what it has seen, its counts adding up to the number of entries. */
  lemma {:induction false} HistogramFacts(s: seq<LogEntry>)
    ensures DistinctBars(Histogram(s)) && BarsCount(Histogram(s), s) && BarsCover(Histogram(s), s)
    ensures SumCounts(Histogram(s)) == |s|
  {
    if s != [] {
      var n := |s| - 1;
      var init, x := s[..n], s[n];
      assert s == init + [x];
      HistogramFacts(init);
      var bs := Histogram(init);
      BumpDistinct(bs, Minute(x.ts));
      BumpCounts(bs, init, x);
      BumpCovers(bs, init, x);
      BumpSum(bs, Minute(x.ts));
    }
  }

  /** Bumping a minute no earlier than the last bar keeps the bars increasing and ends them with that minute. */
  lemma BumpIncreasing(bs: seq<MinuteBucket>, m: int)
    requires IncreasingBars(bs) && (bs == [] || bs[|bs| - 1].t <= m)
    ensures var r := Bump(bs, m);
      IncreasingBars(r) && r != [] && r[|r| - 1].t == m
  {
    if bs != [] && bs[|bs| - 1].t == m {
      assert BarOf(bs, m) == Some(|bs| - 1);
    } else {
      assert BarOf(bs, m) == None;
    }
  }

  /** Over entries in time order the bars come out in increasing order of minute, the last one holding the last entry. */
  lemma {:induction false} HistogramOrdered(s: seq<LogEntry>)
    requires Seqs.SortedBy(s, EntryTs)
    ensures IncreasingBars(Histogram(s))
    ensures s == [] <==> Histogram(s) == []
    ensures s != [] ==> Histogram(s)[|Histogram(s)| - 1].t == Minute(s[|s| - 1].ts)
  {
    if s != [] {
      var n := |s| - 1;
      var init, x := s[..n], s[n];
      assert Seqs.SortedBy(init, EntryTs) by {
        assert forall i :: 0 <= i < n ==> init[i] == s[i];
      }
      HistogramOrdered(init);
      if init != [] {
        assert EntryTs(s[n - 1]) <= EntryTs(s[n]);
        MinuteMonotone(init[n - 1].ts, x.ts);
      }
      BumpIncreasing(Histogram(init), Minute(x.ts));
    }
  }

  /** A histogram does not depend on the order of the entries. */
  lemma HistogramPermutation(bs: seq<MinuteBucket>, s: seq<LogEntry>, t: seq<LogEntry>)
    requires HistogramOf(bs, s) && multiset(s) == multiset(t)
    ensures HistogramOf(bs, t)
  {
    forall i | 0 <= i < |bs| ensures Seqs.CountWhere(s, InMinute(bs[i].t)) == Seqs.CountWhere(t, InMinute(bs[i].t)) {
      Seqs.CountPermutation(s, t, InMinute(bs[i].t));
    }
    forall j | 0 <= j < |t| ensures exists i :: 0 <= i < |bs| && bs[i].t == Minute(t[j].ts) {
      assert t[j] in multiset(s);
      var k :| 0 <= k < |s| && s[k] == t[j];
    }
  }

  /** The first loop of `analyzeCore`: one counter per level, bumped per entry. */
  method CountLevels(s: seq<LogEntry>) returns (levels: map<Level, nat>)
    ensures forall l :: l in levels && levels[l] == Seqs.CountWhere(s, LevelIs(l))
  {
    levels := ZeroLevels;
    forall l ensures l in levels && levels[l] == 0 {
      assert l.Debug? || l.Info? || l.Warn? || l.Error? || l.Fatal? || l.Unknown?;
    }
    for n := 0 to |s|
      invariant forall l :: l in levels && levels[l] == Seqs.CountWhere(s[..n], LevelIs(l))
    {
      var e := s[n];
      assert s[..n + 1][..n] == s[..n];
      levels := levels[e.level := levels[e.level] + 1];
    }
    assert s[..|s|] == s;
  }

  /** The second loop of `analyzeCore`: a minute-to-count map in first-seen order. */
  method BucketMinutes(s: seq<LogEntry>) returns (bucket: seq<MinuteBucket>)
    ensures DistinctBars(bucket) && BarsCount(bucket, s) && BarsCover(bucket, s)
    ensures SumCounts(bucket) == |s|
    ensures Seqs.SortedBy(s, EntryTs) ==> IncreasingBars(bucket)
  {
    bucket := [];
    for n := 0 to |s|
      invariant bucket == Histogram(s[..n])
    {
      var m := Minute(s[n].ts);
      assert s[..n + 1][..n] == s[..n];
      match BarOf(bucket, m)
      case Some(i) =>
        bucket := bucket[i := MinuteBucket(m, bucket[i].count + 1)];
      case None =>
        bucket := bucket + [MinuteBucket(m, 1)];
    }
    assert s[..|s|] == s;
    HistogramFacts(s);
    if Seqs.SortedBy(s, EntryTs) {
      HistogramOrdered(s);
    }
  }

  /**
   * `analyzeCore(entries)`: the entries sorted by time (stably), the count of
   * each level, and the per-minute histogram.
   */
  method AnalyzeCore(entries: seq<LogEntry>) returns (sorted: seq<LogEntry>, levels: map<Level, nat>, byMinute: seq<MinuteBucket>)
    ensures Seqs.SortedBy(sorted, EntryTs) && multiset(sorted) == multiset(entries)
    ensures forall k :: Seqs.WithKey(sorted, EntryTs, k) == Seqs.WithKey(entries, EntryTs, k)
    ensures forall l :: l in levels && levels[l] == Seqs.CountWhere(entries, LevelIs(l))
    ensures HistogramOf(byMinute, entries) && SumCounts(byMinute) == |entries|
  {
    sorted := Seqs.SortBy(entries, EntryTs);
    Seqs.SortByFacts(entries, EntryTs);
    levels := CountLevels(sorted);
    forall l ensures Seqs.CountWhere(sorted, LevelIs(l)) == Seqs.CountWhere(entries, LevelIs(l)) {
      Seqs.CountPermutation(sorted, entries, LevelIs(l));
    }
    var bucket := BucketMinutes(sorted);
    byMinute := Seqs.SortBy(bucket, BarStart);
    Seqs.SortBySorted(bucket, BarStart);
    HistogramPermutation(byMinute, sorted, entries);
  }
}
