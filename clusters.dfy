/**
 * Clustering: alerts grouped by key, each group cut into time windows
 * wherever the gap to the previous alert exceeds the window, and the
 * clusters of all groups ordered by start time.
 */
module Clustering {
  import opened Wrappers
  import opened LogTypes
  import opened Settings
  import Seqs

  // ---------------------------------------------------------------------------
  // Keys and groups

  /** `keyFn`: the primary reason, prefixed by `source::` under `source_reason`. */
  function KeyOf(a: AlertEntry, groupBy: GroupBy): (k: string)
    ensures groupBy == ByReason ==> k == a.primary.GetOr("unknown")
    ensures groupBy == BySourceReason ==> k == a.entry.source + "::" + a.primary.GetOr("unknown")
  {
    var reason := a.primary.GetOr("unknown");
    match groupBy
    case ByReason => reason
    case BySourceReason => a.entry.source + "::" + reason
  }

  /**
   * Among alerts that carry a primary reason, keys separate exactly the
   * primaries: under `reason` always, under `source_reason` within one source.
   */
  lemma KeysSeparatePrimaries(a: AlertEntry, b: AlertEntry)
    requires a.primary.Some? && b.primary.Some?
    ensures KeyOf(a, ByReason) == KeyOf(b, ByReason) <==> a.primary == b.primary
    ensures a.entry.source == b.entry.source ==>
      (KeyOf(a, BySourceReason) == KeyOf(b, BySourceReason) <==> a.primary == b.primary)
  {
    var p := a.entry.source + "::";
    if a.entry.source == b.entry.source && KeyOf(a, BySourceReason) == KeyOf(b, BySourceReason) {
      assert (p + a.primary.value)[|p|..] == a.primary.value;
      assert (p + b.primary.value)[|p|..] == b.primary.value;
    }
  }

  /** The `::` join is not injective: two different (source, reason) pairs can share a key. */
  lemma SourceReasonKeysCollide(e1: LogEntry, e2: LogEntry)
    requires e1.source == "a::b" && e2.source == "a"
    ensures var a1 := AlertEntry(e1, ["c"], 0, 0, Some("c"));
      var a2 := AlertEntry(e2, ["b::c"], 0, 0, Some("b::c"));
      KeyOf(a1, BySourceReason) == KeyOf(a2, BySourceReason) && a1.primary != a2.primary
  {
    assert "a::b" + "::" + "c" == "a" + "::" + "b::c";
  }

  /** One entry of the `grouped` map: a key and its alerts in arrival order. */
  datatype Group = Group(key: string, alerts: seq<AlertEntry>)

  /** `grouped.has(k)`: where the group for `k` sits, if there is one. */
  function GroupIndex(gs: seq<Group>, k: string): (r: Option<nat>)
    ensures r.Some? ==> (r.value < |gs| && gs[r.value].key == k)
    ensures r.None? ==> forall j :: 0 <= j < |gs| ==> gs[j].key != k
  {
    if gs == [] then None
    else if gs[0].key == k then Some(0)
    else match GroupIndex(gs[1..], k)
      case Some(i) => Some(i + 1)
      case None => None
  }

  /** `grouped.get(k)!.push(a)`, creating the group at the end when `k` is new. */
  function AddToGroup(gs: seq<Group>, k: string, a: AlertEntry): seq<Group> {
    match GroupIndex(gs, k)
    case Some(i) => gs[i := Group(k, gs[i].alerts + [a])]
    case None => gs + [Group(k, [a])]
  }

  function KeyPiece(k: string, groupBy: GroupBy): AlertEntry -> seq<AlertEntry> {
    a => if KeyOf(a, groupBy) == k then [a] else []
  }

  /** The alerts with key `k`, in order. */
  function WithGroupKey(alerts: seq<AlertEntry>, k: string, groupBy: GroupBy): seq<AlertEntry> {
    Seqs.FlatMap(alerts, KeyPiece(k, groupBy))
  }

  function GroupMembers(g: Group): seq<AlertEntry> { g.alerts }

  ghost predicate DistinctKeys(gs: seq<Group>) {
    forall i, j :: 0 <= i < j < |gs| ==> gs[i].key != gs[j].key
  }

  /**
   * `gs` groups `alerts`: one group per key that occurs, each holding exactly
   * the alerts with that key in their order.
   */
  ghost predicate GroupsOf(gs: seq<Group>, alerts: seq<AlertEntry>, groupBy: GroupBy) {
    && DistinctKeys(gs)
    && (forall i :: 0 <= i < |gs| ==> gs[i].alerts != [] && gs[i].alerts == WithGroupKey(alerts, gs[i].key, groupBy))
    && (forall j :: 0 <= j < |alerts| ==> exists i :: 0 <= i < |gs| && gs[i].key == KeyOf(alerts[j], groupBy))
  }

  lemma WithGroupKeyStep(alerts: seq<AlertEntry>, a: AlertEntry, k: string, groupBy: GroupBy)
    ensures WithGroupKey(alerts + [a], k, groupBy)
      == WithGroupKey(alerts, k, groupBy) + (if KeyOf(a, groupBy) == k then [a] else [])
  {
    assert (alerts + [a])[..|alerts|] == alerts;
  }

  /** Adding keeps every existing key in place and makes sure `k` has a group. */
  lemma AddToGroupKeys(gs: seq<Group>, k: string, a: AlertEntry)
    ensures var r := AddToGroup(gs, k, a);
      && |gs| <= |r| <= |gs| + 1
      && (forall m :: 0 <= m < |gs| ==> r[m].key == gs[m].key)
      && (|r| == |gs| + 1 ==> r[|gs|] == Group(k, [a]) && forall m :: 0 <= m < |gs| ==> gs[m].key != k)
      && (exists m :: 0 <= m < |r| && r[m].key == k)
      && (DistinctKeys(gs) ==> DistinctKeys(r))
  {
    var r := AddToGroup(gs, k, a);
    match GroupIndex(gs, k)
    case Some(i) =>
      assert r[i].key == k;
    case None =>
      assert r[|gs|].key == k;
  }

  /** Adding keeps every group equal to the alerts of its key, now including `a`. */
  lemma AddToGroupContents(gs: seq<Group>, alerts: seq<AlertEntry>, a: AlertEntry, groupBy: GroupBy)
    requires DistinctKeys(gs)
    requires forall i :: 0 <= i < |gs| ==> gs[i].alerts != [] && gs[i].alerts == WithGroupKey(alerts, gs[i].key, groupBy)
    requires forall j :: 0 <= j < |alerts| ==> exists i :: 0 <= i < |gs| && gs[i].key == KeyOf(alerts[j], groupBy)
    ensures var r := AddToGroup(gs, KeyOf(a, groupBy), a);
      forall i :: 0 <= i < |r| ==> r[i].alerts != [] && r[i].alerts == WithGroupKey(alerts + [a], r[i].key, groupBy)
  {
    var k := KeyOf(a, groupBy);
    var r := AddToGroup(gs, k, a);
    forall key ensures WithGroupKey(alerts + [a], key, groupBy)
      == WithGroupKey(alerts, key, groupBy) + (if k == key then [a] else [])
    {
      WithGroupKeyStep(alerts, a, key, groupBy);
    }
    if GroupIndex(gs, k).None? {
      Seqs.FlatMapEmpty(alerts, KeyPiece(k, groupBy));
      forall j | 0 <= j < |alerts| ensures KeyPiece(k, groupBy)(alerts[j]) == [] {
        var i :| 0 <= i < |gs| && gs[i].key == KeyOf(alerts[j], groupBy);
      }
    }
  }

  /** Adding keeps a group for the key of every alert seen, `a` included. */
  lemma AddToGroupCovers(gs: seq<Group>, alerts: seq<AlertEntry>, a: AlertEntry, groupBy: GroupBy)
    requires forall j :: 0 <= j < |alerts| ==> exists i :: 0 <= i < |gs| && gs[i].key == KeyOf(alerts[j], groupBy)
    ensures var r := AddToGroup(gs, KeyOf(a, groupBy), a);
      forall j :: 0 <= j < |alerts + [a]| ==> exists i :: 0 <= i < |r| && r[i].key == KeyOf((alerts + [a])[j], groupBy)
  {
    var k := KeyOf(a, groupBy);
    var r := AddToGroup(gs, k, a);
    AddToGroupKeys(gs, k, a);
    forall j | 0 <= j < |alerts + [a]| ensures exists i :: 0 <= i < |r| && r[i].key == KeyOf((alerts + [a])[j], groupBy) {
      if j < |alerts| {
        var i :| 0 <= i < |gs| && gs[i].key == KeyOf(alerts[j], groupBy);
        assert r[i].key == gs[i].key;
      }
    }
  }

  lemma AddToGroupFacts(gs: seq<Group>, alerts: seq<AlertEntry>, a: AlertEntry, groupBy: GroupBy)
    requires GroupsOf(gs, alerts, groupBy)
    ensures GroupsOf(AddToGroup(gs, KeyOf(a, groupBy), a), alerts + [a], groupBy)
  {
    AddToGroupKeys(gs, KeyOf(a, groupBy), a);
    AddToGroupContents(gs, alerts, a, groupBy);
    AddToGroupCovers(gs, alerts, a, groupBy);
  }

  /** Growing one piece of a flat map by `y` adds `y` to what the flat map holds. */
  lemma FlatMapGrow<A, B>(s: seq<A>, i: nat, x: A, f: A -> seq<B>, y: B)
    requires i < |s| && f(x) == f(s[i]) + [y]
    ensures multiset(Seqs.FlatMap(s[i := x], f)) == multiset(Seqs.FlatMap(s, f)) + multiset{y}
  {
    var t := s[i := x];
    assert t[..i] == s[..i] && t[i + 1..] == s[i + 1..];
    Seqs.FlatMapSplit(s, i, f);
    Seqs.FlatMapSplit(t, i, f);
    var pre, post := Seqs.FlatMap(s[..i], f), Seqs.FlatMap(s[i + 1..], f);
    assert multiset(pre + f(x) + post) == multiset(pre) + multiset(f(x)) + multiset(post);
    assert multiset(pre + f(s[i]) + post) == multiset(pre) + multiset(f(s[i])) + multiset(post);
  }

  lemma AddToGroupPartition(gs: seq<Group>, k: string, a: AlertEntry)
    ensures multiset(Seqs.FlatMap(AddToGroup(gs, k, a), GroupMembers)) == multiset(Seqs.FlatMap(gs, GroupMembers)) + multiset{a}
  {
    match GroupIndex(gs, k)
    case Some(i) =>
      FlatMapGrow(gs, i, Group(k, gs[i].alerts + [a]), GroupMembers, a);
    case None =>
      Seqs.FlatMapAppend(gs, [Group(k, [a])], GroupMembers);
      assert Seqs.FlatMap([Group(k, [a])], GroupMembers) == [a];
  }

  /** The grouping loop. */
  method GroupAlerts(alerts: seq<AlertEntry>, groupBy: GroupBy) returns (groups: seq<Group>)
    ensures GroupsOf(groups, alerts, groupBy)
    ensures multiset(Seqs.FlatMap(groups, GroupMembers)) == multiset(alerts)
  {
    groups := [];
    ghost var seen: seq<AlertEntry> := [];
    for n := 0 to |alerts|
      invariant seen == alerts[..n]
      invariant GroupsOf(groups, seen, groupBy)
      invariant multiset(Seqs.FlatMap(groups, GroupMembers)) == multiset(seen)
    {
      var a := alerts[n];
      var k := KeyOf(a, groupBy);
      AddToGroupFacts(groups, seen, a, groupBy);
      AddToGroupPartition(groups, k, a);
      ghost var next := AddToGroup(groups, k, a);
      match GroupIndex(groups, k) {
        case Some(i) =>
          groups := groups[i := Group(k, groups[i].alerts + [a])];
        case None =>
          groups := groups + [Group(k, [a])];
      }
      assert groups == next;
      Seqs.TakeSnoc(alerts, n);
      seen := seen + [a];
    }
    assert alerts[..|alerts|] == alerts;
  }

  // ---------------------------------------------------------------------------
  // Windows

  function Members(c: Cluster): seq<AlertEntry> { c.alerts }

  function Flatten(cs: seq<Cluster>): seq<AlertEntry> {
    Seqs.FlatMap(cs, Members)
  }

  /**
   * A cluster of key `key`: non-empty, `count` its size, `startTs` and
   * `endTs` the times of its first and last alert, and no gap between
   * neighbours above `w`.
   */
  ghost predicate WellFormed(c: Cluster, key: string, w: int) {
    && c.key == key
    && |c.alerts| > 0
    && c.count == |c.alerts|
    && c.startTs == AlertTs(c.alerts[0])
    && c.endTs == AlertTs(c.alerts[|c.alerts| - 1])
    && forall j, k :: 0 <= j < k < |c.alerts| && k == j + 1 ==> AlertTs(c.alerts[k]) - AlertTs(c.alerts[j]) <= w
  }

  /** Each cluster starts more than `w` after the previous one ends. */
  ghost predicate Chained(cs: seq<Cluster>, w: int) {
    forall i, j :: 0 <= i < j < |cs| && j == i + 1 ==> cs[j].startTs - cs[i].endTs > w
  }

  /** `cs` cuts `list` into windows: in order, each well formed, each cut at a gap above `w`. */
  ghost predicate WindowSplit(cs: seq<Cluster>, list: seq<AlertEntry>, key: string, w: int) {
    && (forall i :: 0 <= i < |cs| ==> WellFormed(cs[i], key, w))
    && Chained(cs, w)
    && Flatten(cs) == list
  }

  /** Over a time-sorted list: members ascend, every later cluster starts more than `w` after any earlier one ends. */
  ghost predicate TimeOrdered(cs: seq<Cluster>, w: int) {
    && (forall i :: 0 <= i < |cs| ==> Seqs.SortedBy(cs[i].alerts, AlertTs))
    && (forall i, j :: 0 <= i < j < |cs| ==> cs[j].startTs - cs[i].endTs > w)
    && (forall i :: 0 <= i < |cs| ==> cs[i].endTs <= cs[|cs| - 1].endTs)
  }

  function Single(key: string, a: AlertEntry): Cluster {
    Cluster(key, AlertTs(a), AlertTs(a), 1, [a])
  }

  function Extend(c: Cluster, a: AlertEntry): Cluster {
    c.(endTs := AlertTs(a), count := c.count + 1, alerts := c.alerts + [a])
  }

  lemma FlattenAppend(cs: seq<Cluster>, c: Cluster)
    ensures Flatten(cs + [c]) == Flatten(cs) + c.alerts
  {
    Seqs.FlatMapAppend(cs, [c], Members);
    assert Seqs.FlatMap([c], Members) == c.alerts;
  }

  lemma SplitStart(cs: seq<Cluster>, list: seq<AlertEntry>, n: nat, key: string, w: int)
    requires n < |list| && WindowSplit(cs, list[..n], key, w)
    requires cs != [] ==> AlertTs(list[n]) - cs[|cs| - 1].endTs > w
    ensures WindowSplit(cs + [Single(key, list[n])], list[..n + 1], key, w)
  {
    FlattenAppend(cs, Single(key, list[n]));
    assert list[..n] + [list[n]] == list[..n + 1];
  }

  lemma SplitExtend(cs: seq<Cluster>, c: Cluster, list: seq<AlertEntry>, n: nat, key: string, w: int)
    requires n < |list| && WindowSplit(cs + [c], list[..n], key, w)
    requires AlertTs(list[n]) - c.endTs <= w
    ensures WindowSplit(cs + [Extend(c, list[n])], list[..n + 1], key, w)
  {
    var c' := Extend(c, list[n]);
    assert (cs + [c])[|cs|] == c;
    assert WellFormed(c, key, w);
    FlattenAppend(cs, c);
    FlattenAppend(cs, c');
    assert list[..n] + [list[n]] == list[..n + 1];
    assert WellFormed(c', key, w);
    forall i, j | 0 <= i < j < |cs + [c']| && j == i + 1 ensures (cs + [c'])[j].startTs - (cs + [c'])[i].endTs > w {
      assert (cs + [c])[j].startTs == (cs + [c'])[j].startTs;
      assert (cs + [c])[i] == (cs + [c'])[i];
    }
  }

  lemma OrderedStart(cs: seq<Cluster>, list: seq<AlertEntry>, n: nat, key: string, w: int)
    requires n < |list| && Seqs.SortedBy(list, AlertTs)
    requires TimeOrdered(cs, w)
    requires cs != [] ==> AlertTs(list[n]) - cs[|cs| - 1].endTs > w
    requires cs != [] ==> 0 < n && cs[|cs| - 1].endTs == AlertTs(list[n - 1])
    ensures TimeOrdered(cs + [Single(key, list[n])], w)
  {
    var all := cs + [Single(key, list[n])];
    forall i | 0 <= i < |all| ensures all[i].endTs <= AlertTs(list[n]) {
      if i < |cs| {
        assert all[i] == cs[i];
      }
    }
  }

  lemma OrderedExtend(cs: seq<Cluster>, c: Cluster, list: seq<AlertEntry>, n: nat, key: string, w: int)
    requires 0 < n < |list| && Seqs.SortedBy(list, AlertTs)
    requires TimeOrdered(cs + [c], w) && c.endTs == AlertTs(list[n - 1])
    requires c.alerts != [] && c.alerts[|c.alerts| - 1] == list[n - 1]
    ensures TimeOrdered(cs + [Extend(c, list[n])], w)
  {
    var all, c' := cs + [c], Extend(c, list[n]);
    assert all[|cs|] == c;
    forall i | 0 <= i < |c'.alerts| - 1 ensures AlertTs(c'.alerts[i]) <= AlertTs(list[n]) {
      assert c'.alerts[i] == c.alerts[i];
    }
    forall i, j | 0 <= i < j < |c'.alerts| ensures AlertTs(c'.alerts[i]) <= AlertTs(c'.alerts[j]) {
      if j < |c.alerts| {
        assert c'.alerts[i] == c.alerts[i] && c'.alerts[j] == c.alerts[j];
      }
    }
    forall i | 0 <= i < |cs + [c']| ensures Seqs.SortedBy((cs + [c'])[i].alerts, AlertTs) {
      if i < |cs| {
        assert all[i] == (cs + [c'])[i];
      }
    }
    forall i, j | 0 <= i < j < |cs + [c']| ensures (cs + [c'])[j].startTs - (cs + [c'])[i].endTs > w {
      assert all[j].startTs == (cs + [c'])[j].startTs;
      assert all[i] == (cs + [c'])[i];
    }
    forall i | 0 <= i < |cs + [c']| ensures (cs + [c'])[i].endTs <= AlertTs(list[n]) {
      if i < |cs| {
        assert all[i] == (cs + [c'])[i];
      }
    }
  }

  function AsSeq(c: Option<Cluster>): seq<Cluster> {
    match c
    case Some(x) => [x]
    case None => []
  }

  /**
   * The scan's state after `n` alerts: the finished clusters and the open
   * one (present once an alert has been seen, ending with the last alert
   * seen) cut the alerts seen so far into windows.
   */
  ghost predicate ScanState(clusters: seq<Cluster>, cur: Option<Cluster>, list: seq<AlertEntry>, n: nat, key: string, w: int) {
    && n <= |list|
    && (cur.None? <==> n == 0)
    && (cur.None? ==> clusters == [])
    && (cur.Some? ==> cur.value.alerts != [] && cur.value.alerts[|cur.value.alerts| - 1] == list[n - 1])
    && WindowSplit(clusters + AsSeq(cur), list[..n], key, w)
    && (Seqs.SortedBy(list, AlertTs) ==> TimeOrdered(clusters + AsSeq(cur), w))
  }

  lemma ScanFirst(list: seq<AlertEntry>, key: string, w: int)
    requires |list| > 0
    ensures ScanState([], Some(Single(key, list[0])), list, 1, key, w)
  {
    assert [] + AsSeq(Some(Single(key, list[0]))) == [Single(key, list[0])];
    SplitStart([], list, 0, key, w);
    if Seqs.SortedBy(list, AlertTs) {
      OrderedStart([], list, 0, key, w);
    }
  }

  lemma ScanJoin(clusters: seq<Cluster>, c: Cluster, list: seq<AlertEntry>, n: nat, key: string, w: int)
    requires ScanState(clusters, Some(c), list, n, key, w) && n < |list|
    requires AlertTs(list[n]) - c.endTs <= w
    ensures ScanState(clusters, Some(Extend(c, list[n])), list, n + 1, key, w)
  {
    assert clusters + AsSeq(Some(c)) == clusters + [c];
    assert clusters + AsSeq(Some(Extend(c, list[n]))) == clusters + [Extend(c, list[n])];
    assert WellFormed((clusters + [c])[|clusters|], key, w);
    SplitExtend(clusters, c, list, n, key, w);
    if Seqs.SortedBy(list, AlertTs) {
      OrderedExtend(clusters, c, list, n, key, w);
    }
  }

  lemma ScanCut(clusters: seq<Cluster>, c: Cluster, list: seq<AlertEntry>, n: nat, key: string, w: int)
    requires ScanState(clusters, Some(c), list, n, key, w) && n < |list|
    requires AlertTs(list[n]) - c.endTs > w
    ensures ScanState(clusters + [c], Some(Single(key, list[n])), list, n + 1, key, w)
  {
    assert clusters + AsSeq(Some(c)) == clusters + [c];
    assert (clusters + [c]) + AsSeq(Some(Single(key, list[n]))) == (clusters + [c]) + [Single(key, list[n])];
    assert WellFormed((clusters + [c])[|clusters|], key, w);
    SplitStart(clusters + [c], list, n, key, w);
    if Seqs.SortedBy(list, AlertTs) {
      OrderedStart(clusters + [c], list, n, key, w);
    }
  }

  /**
   * The scan over one group's time-sorted alerts: an alert within `w` of the
   * current cluster's end joins it, any other starts a new cluster.
   */
  method WindowMerge(key: string, list: seq<AlertEntry>, w: int) returns (clusters: seq<Cluster>)
    ensures WindowSplit(clusters, list, key, w)
    ensures Seqs.SortedBy(list, AlertTs) ==> TimeOrdered(clusters, w)
  {
    clusters := [];
    var cur: Option<Cluster> := None;
    for n := 0 to |list|
      invariant ScanState(clusters, cur, list, n, key, w)
    {
      var a := list[n];
      if cur.None? {
        ScanFirst(list, key, w);
        cur := Some(Single(key, a));
        continue;
      }
      var c := cur.value;
      if a.entry.ts - c.endTs <= w {
        ScanJoin(clusters, c, list, n, key, w);
        cur := Some(Extend(c, a));
      } else {
        ScanCut(clusters, c, list, n, key, w);
        clusters := clusters + [c];
        cur := Some(Single(key, a));
      }
    }
    assert list[..|list|] == list;
    if cur.Some? {
      assert clusters + AsSeq(cur) == clusters + [cur.value];
      clusters := clusters + [cur.value];
    } else {
      assert clusters + AsSeq(cur) == clusters;
    }
  }

  // ---------------------------------------------------------------------------
  // All clusters

  /** Neither cluster comes within `w` of the other. */
  ghost predicate Apart(p: Cluster, q: Cluster, w: int) {
    q.startTs - p.endTs > w || p.startTs - q.endTs > w
  }

  /** A finished cluster: well formed under its own key, its members time-ascending and all of that key. */
  ghost predicate ClusterOf(c: Cluster, groupBy: GroupBy, w: int) {
    && WellFormed(c, c.key, w)
    && Seqs.SortedBy(c.alerts, AlertTs)
    && forall a :: a in c.alerts ==> KeyOf(a, groupBy) == c.key
  }

  /** Different clusters of one key are more than `w` apart. */
  ghost predicate SameKeyApart(cs: seq<Cluster>, w: int) {
    forall p, q :: p in cs && q in cs && p.key == q.key && p != q ==> Apart(p, q, w)
  }

  /** The clusters built from the first `g` groups. */
  ghost predicate BuiltFrom(all: seq<Cluster>, groups: seq<Group>, g: nat, groupBy: GroupBy, w: int) {
    && g <= |groups|
    && (forall c :: c in all ==> ClusterOf(c, groupBy, w))
    && (forall c :: c in all ==> exists k :: 0 <= k < g && c.key == groups[k].key)
    && SameKeyApart(all, w)
    && multiset(Flatten(all)) == multiset(Seqs.FlatMap(groups[..g], GroupMembers))
  }

  lemma MemberOfFlatten(cs: seq<Cluster>, c: Cluster, a: AlertEntry)
    requires c in cs && a in c.alerts
    ensures a in Flatten(cs)
  {
    var i :| 0 <= i < |cs| && cs[i] == c;
    Seqs.FlatMapIncludes(cs, Members, i, a);
  }

  lemma GroupMemberKey(alerts: seq<AlertEntry>, k: string, groupBy: GroupBy, a: AlertEntry)
    requires a in WithGroupKey(alerts, k, groupBy)
    ensures KeyOf(a, groupBy) == k
  {
    Seqs.FlatMapMember(alerts, KeyPiece(k, groupBy), a);
  }

  lemma NewClusters(cs: seq<Cluster>, list: seq<AlertEntry>, groups: seq<Group>, g: nat,
                    alerts: seq<AlertEntry>, groupBy: GroupBy, w: int)
    requires g < |groups| && GroupsOf(groups, alerts, groupBy)
    requires multiset(list) == multiset(groups[g].alerts)
    requires WindowSplit(cs, list, groups[g].key, w) && TimeOrdered(cs, w)
    ensures forall c :: c in cs ==> ClusterOf(c, groupBy, w) && c.key == groups[g].key
  {
    var key := groups[g].key;
    forall c | c in cs ensures ClusterOf(c, groupBy, w) && c.key == key {
      var i :| 0 <= i < |cs| && cs[i] == c;
      assert WellFormed(cs[i], key, w);
      forall a | a in c.alerts ensures KeyOf(a, groupBy) == c.key {
        MemberOfFlatten(cs, c, a);
        assert a in multiset(groups[g].alerts);
        GroupMemberKey(alerts, key, groupBy, a);
      }
    }
  }

  lemma NewApart(all: seq<Cluster>, cs: seq<Cluster>, groups: seq<Group>, g: nat, w: int)
    requires g < |groups| && DistinctKeys(groups)
    requires forall c :: c in all ==> exists k :: 0 <= k < g && c.key == groups[k].key
    requires forall c :: c in cs ==> c.key == groups[g].key
    requires SameKeyApart(all, w) && TimeOrdered(cs, w)
    ensures SameKeyApart(all + cs, w)
  {
    forall p, q | p in all && q in cs ensures p.key != q.key {
      var k :| 0 <= k < g && p.key == groups[k].key;
      assert groups[k].key != groups[g].key;
    }
    forall p, q | p in all + cs && q in all + cs && p.key == q.key && p != q ensures Apart(p, q, w) {
      if p in cs && q in cs {
        var i :| 0 <= i < |cs| && cs[i] == p;
        var j :| 0 <= j < |cs| && cs[j] == q;
        assert i != j;
      }
    }
  }

  lemma NewMembers(all: seq<Cluster>, cs: seq<Cluster>, list: seq<AlertEntry>, groups: seq<Group>, g: nat)
    requires g < |groups| && multiset(list) == multiset(groups[g].alerts) && Flatten(cs) == list
    requires multiset(Flatten(all)) == multiset(Seqs.FlatMap(groups[..g], GroupMembers))
    ensures multiset(Flatten(all + cs)) == multiset(Seqs.FlatMap(groups[..g + 1], GroupMembers))
  {
    var before := Seqs.FlatMap(groups[..g], GroupMembers);
    Seqs.FlatMapAppend(all, cs, Members);
    assert Flatten(all + cs) == Flatten(all) + list;
    assert groups[..g + 1][..g] == groups[..g];
    assert Seqs.FlatMap(groups[..g + 1], GroupMembers) == before + groups[g].alerts;
    assert multiset(Flatten(all) + list) == multiset(Flatten(all)) + multiset(list);
    assert multiset(before + groups[g].alerts) == multiset(before) + multiset(groups[g].alerts);
  }

  /** The clusters of one more group keep the invariant of the build loop. */
  lemma BuildStep(all: seq<Cluster>, cs: seq<Cluster>, list: seq<AlertEntry>, groups: seq<Group>, g: nat,
                  alerts: seq<AlertEntry>, groupBy: GroupBy, w: int)
    requires g < |groups| && GroupsOf(groups, alerts, groupBy) && BuiltFrom(all, groups, g, groupBy, w)
    requires multiset(list) == multiset(groups[g].alerts)
    requires WindowSplit(cs, list, groups[g].key, w) && TimeOrdered(cs, w)
    ensures BuiltFrom(all + cs, groups, g + 1, groupBy, w)
  {
    NewClusters(cs, list, groups, g, alerts, groupBy, w);
    NewApart(all, cs, groups, g, w);
    NewMembers(all, cs, list, groups, g);
    forall c | c in all + cs ensures exists k :: 0 <= k < g + 1 && c.key == groups[k].key {
      if c in cs {
        assert c.key == groups[g].key;
      } else {
        var k :| 0 <= k < g && c.key == groups[k].key;
      }
    }
  }

  /** Ordering the clusters by start time keeps each of them and what they hold. */
  lemma SortedClusters(all: seq<Cluster>, groupBy: GroupBy, w: int)
    requires forall c :: c in all ==> ClusterOf(c, groupBy, w)
    requires SameKeyApart(all, w)
    ensures var clusters := Seqs.SortBy(all, ClusterStart);
      && Seqs.SortedBy(clusters, ClusterStart)
      && multiset(Flatten(clusters)) == multiset(Flatten(all))
      && (forall c :: c in clusters ==> ClusterOf(c, groupBy, w))
      && SameKeyApart(clusters, w)
  {
    var clusters := Seqs.SortBy(all, ClusterStart);
    Seqs.SortByFacts(all, ClusterStart);
    Seqs.FlatMapPermutation(clusters, all, Members);
    forall c | c in clusters ensures c in all {
      assert c in multiset(all);
    }
  }

  /**
   * The clustering stage of `analyzeWithSettings`: group the alerts by key,
   * sort each group by time and cut it into windows, then order all clusters
   * by start time.
   */
  method BuildClusters(alerts: seq<AlertEntry>, groupBy: GroupBy, w: int) returns (clusters: seq<Cluster>)
    ensures Seqs.SortedBy(clusters, ClusterStart)
    ensures multiset(Flatten(clusters)) == multiset(alerts)
    ensures forall c :: c in clusters ==> ClusterOf(c, groupBy, w)
    ensures SameKeyApart(clusters, w)
  {
    var groups := GroupAlerts(alerts, groupBy);
    var all: seq<Cluster> := [];
    for g := 0 to |groups|
      invariant BuiltFrom(all, groups, g, groupBy, w)
    {
      var list := Seqs.SortBy(groups[g].alerts, AlertTs);
      Seqs.SortByFacts(groups[g].alerts, AlertTs);
      var cs := WindowMerge(groups[g].key, list, w);
      BuildStep(all, cs, list, groups, g, alerts, groupBy, w);
      all := all + cs;
    }
    assert groups[..|groups|] == groups;
    SortedClusters(all, groupBy, w);
    clusters := Seqs.SortBy(all, ClusterStart);
  }
}
