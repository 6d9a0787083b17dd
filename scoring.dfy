/**
 * Alert scoring: what each entry contributes through its level and through
 * the enabled rules that match its line, and the alert built from it.
 */
module Scoring {
  import opened Wrappers
  import opened LogTypes
  import opened Runtime
  import opened Settings
  import opened RuleCompiler
  import Seqs

  /** One reason for flagging an entry, with the score and severity it adds. */
  datatype Contribution = Contribution(reason: string, weight: int, severity: int)

  /** WARN, ERROR and FATAL lines are flagged for their level alone. */
  predicate IsAlertLevel(l: Level) {
    l == Warn || l == Error || l == Fatal
  }

  /** The level's own contribution: `Level:WARN` 4/3, `Level:ERROR` 7/4, `Level:FATAL` 9/5. */
  function LevelContribution(l: Level): (c: Option<Contribution>)
    ensures c.Some? <==> IsAlertLevel(l)
    ensures c.Some? ==> c.value.reason == "Level:" + LevelName(l)
  {
    match l
    case Warn => Some(Contribution("Level:" + LevelName(l), 4, 3))
    case Error => Some(Contribution("Level:" + LevelName(l), 7, 4))
    case Fatal => Some(Contribution("Level:" + LevelName(l), 9, 5))
    case _ => None
  }

  function LevelPart(l: Level): seq<Contribution> {
    match LevelContribution(l)
    case Some(c) => [c]
    case None => []
  }

  /** A compiled rule fires on a line when it is enabled and its expression matches the line. */
  predicate Hit(c: CompiledRule, raw: string, engine: RegexEngine) {
    c.rule.enabled && Matches(engine, c.re, raw)
  }

  function RuleContribution(c: CompiledRule): Contribution {
    Contribution(c.rule.name, c.rule.weight, c.rule.severity)
  }

  function HitPiece(raw: string, engine: RegexEngine): CompiledRule -> seq<Contribution> {
    c => if Hit(c, raw, engine) then [RuleContribution(c)] else []
  }

  /** The contributions of the rules that fire, in rule order. */
  function RuleHits(compiled: seq<CompiledRule>, raw: string, engine: RegexEngine): seq<Contribution> {
    Seqs.FlatMap(compiled, HitPiece(raw, engine))
  }

  /** Everything an entry contributes: its level first, then the rules that fire. */
  function Contributions(e: LogEntry, compiled: seq<CompiledRule>, engine: RegexEngine): seq<Contribution> {
    LevelPart(e.level) + RuleHits(compiled, e.raw, engine)
  }

  function Reasons(cs: seq<Contribution>): (r: seq<string>)
    ensures |r| == |cs| && forall i :: 0 <= i < |cs| ==> r[i] == cs[i].reason
  {
    seq(|cs|, i requires 0 <= i < |cs| => cs[i].reason)
  }

  function TotalWeight(cs: seq<Contribution>): int {
    if cs == [] then 0 else TotalWeight(cs[..|cs| - 1]) + cs[|cs| - 1].weight
  }

  function Max(a: int, b: int): int { if a < b then b else a }

  /** `Math.max` folded over the severities, starting from 0. */
  function MaxSeverity(cs: seq<Contribution>): int {
    if cs == [] then 0 else Max(MaxSeverity(cs[..|cs| - 1]), cs[|cs| - 1].severity)
  }

  /**
   * The alert for `e`, when it has at least one reason: the reasons in order,
   * the summed weights, the greatest severity and the first reason as primary.
   */
  function AlertFor(e: LogEntry, compiled: seq<CompiledRule>, engine: RegexEngine): Option<AlertEntry> {
    var cs := Contributions(e, compiled, engine);
    if cs == [] then None
    else Some(AlertEntry(e, Reasons(cs), TotalWeight(cs), MaxSeverity(cs), Some(cs[0].reason)))
  }

  // ---------------------------------------------------------------------------
  // Properties of the fold

  lemma TotalWeightAppend(cs: seq<Contribution>, ds: seq<Contribution>)
    ensures TotalWeight(cs + ds) == TotalWeight(cs) + TotalWeight(ds)
    decreases |ds|
  {
    if ds == [] {
      assert cs + ds == cs;
    } else {
      var n := |ds| - 1;
      assert (cs + ds)[..|cs + ds| - 1] == cs + ds[..n];
      TotalWeightAppend(cs, ds[..n]);
    }
  }

  /** The fold's severity is at least 0 and every contribution's, and it is 0 or one of them. */
  lemma {:induction false} MaxSeverityBounds(cs: seq<Contribution>)
    ensures MaxSeverity(cs) >= 0
    ensures forall c :: c in cs ==> c.severity <= MaxSeverity(cs)
    ensures MaxSeverity(cs) == 0 || exists c :: c in cs && c.severity == MaxSeverity(cs)
  {
    if cs != [] {
      var n := |cs| - 1;
      MaxSeverityBounds(cs[..n]);
      assert cs == cs[..n] + [cs[n]];
      forall c | c in cs ensures c.severity <= MaxSeverity(cs) {
        if c != cs[n] {
          assert c in cs[..n];
        }
      }
      if MaxSeverity(cs) != cs[n].severity && MaxSeverity(cs) != 0 {
        var c :| c in cs[..n] && c.severity == MaxSeverity(cs[..n]);
        assert c in cs;
      }
    }
  }

  /** A rule's contribution is among the entry's exactly when the rule fires on its line. */
  lemma RuleHitsMembers(compiled: seq<CompiledRule>, raw: string, engine: RegexEngine)
    ensures forall i :: 0 <= i < |compiled| && Hit(compiled[i], raw, engine) ==>
      RuleContribution(compiled[i]) in RuleHits(compiled, raw, engine)
    ensures forall c :: c in RuleHits(compiled, raw, engine) ==>
      exists i :: 0 <= i < |compiled| && Hit(compiled[i], raw, engine) && c == RuleContribution(compiled[i])
  {
    var f := HitPiece(raw, engine);
    forall i | 0 <= i < |compiled| && Hit(compiled[i], raw, engine)
      ensures RuleContribution(compiled[i]) in RuleHits(compiled, raw, engine)
    {
      Seqs.FlatMapIncludes(compiled, f, i, RuleContribution(compiled[i]));
    }
    forall c | c in RuleHits(compiled, raw, engine)
      ensures exists i :: 0 <= i < |compiled| && Hit(compiled[i], raw, engine) && c == RuleContribution(compiled[i])
    {
      Seqs.FlatMapMember(compiled, f, c);
    }
  }

  // ---------------------------------------------------------------------------
  // Properties of the alert

  /** An entry is flagged exactly when its level is WARN, ERROR or FATAL or some enabled compiled rule matches its line. */
  lemma AlertExistsIff(e: LogEntry, compiled: seq<CompiledRule>, engine: RegexEngine)
    ensures AlertFor(e, compiled, engine).Some? <==>
      IsAlertLevel(e.level) || exists i :: 0 <= i < |compiled| && Hit(compiled[i], e.raw, engine)
  {
    Seqs.FlatMapEmpty(compiled, HitPiece(e.raw, engine));
    if exists i :: 0 <= i < |compiled| && Hit(compiled[i], e.raw, engine) {
      var i :| 0 <= i < |compiled| && Hit(compiled[i], e.raw, engine);
      assert HitPiece(e.raw, engine)(compiled[i]) != [];
    }
  }

  /**
   * The alert's shape: it is about `e`, its primary reason is its first, the
   * level reason (if any) comes first, and the score is the level's weight
   * plus the weights of the rules that fire.
   */
  lemma AlertShape(e: LogEntry, compiled: seq<CompiledRule>, engine: RegexEngine)
    requires AlertFor(e, compiled, engine).Some?
    ensures var a := AlertFor(e, compiled, engine).value;
      && a.entry == e
      && |a.reasons| >= 1 && a.primary == Some(a.reasons[0])
      && (IsAlertLevel(e.level) ==> a.reasons[0] == "Level:" + LevelName(e.level))
      && a.reasons == Reasons(LevelPart(e.level)) + Reasons(RuleHits(compiled, e.raw, engine))
      && a.score == TotalWeight(LevelPart(e.level)) + TotalWeight(RuleHits(compiled, e.raw, engine))
  {
    var lp, hits := LevelPart(e.level), RuleHits(compiled, e.raw, engine);
    TotalWeightAppend(lp, hits);
    ReasonsConcat(lp, hits);
  }

  lemma ReasonsConcat(cs: seq<Contribution>, ds: seq<Contribution>)
    ensures Reasons(cs + ds) == Reasons(cs) + Reasons(ds)
  {
    assert forall i :: 0 <= i < |cs| + |ds| ==> (Reasons(cs) + Reasons(ds))[i] == (cs + ds)[i].reason;
  }

  /** The severity is the largest among the level's and the firing rules', and never below 0. */
  lemma AlertSeverityIsMax(e: LogEntry, compiled: seq<CompiledRule>, engine: RegexEngine)
    requires AlertFor(e, compiled, engine).Some?
    ensures var a := AlertFor(e, compiled, engine).value;
      && a.severity >= 0
      && (IsAlertLevel(e.level) ==> LevelContribution(e.level).value.severity <= a.severity)
      && (forall i :: 0 <= i < |compiled| && Hit(compiled[i], e.raw, engine) ==> compiled[i].rule.severity <= a.severity)
      && (a.severity == 0 || exists c :: c in Contributions(e, compiled, engine) && c.severity == a.severity)
  {
    var cs := Contributions(e, compiled, engine);
    MaxSeverityBounds(cs);
    RuleHitsMembers(compiled, e.raw, engine);
    if IsAlertLevel(e.level) {
      assert cs[0] == LevelContribution(e.level).value;
    }
    forall i | 0 <= i < |compiled| && Hit(compiled[i], e.raw, engine)
      ensures compiled[i].rule.severity <= MaxSeverity(cs)
    {
      assert RuleContribution(compiled[i]) in cs;
    }
  }

  /** A rule that does not fire contributes nothing, wherever it stands. */
  lemma SilentRuleNoHits(raw: string, a: seq<CompiledRule>, c: CompiledRule, b: seq<CompiledRule>, engine: RegexEngine)
    requires !Hit(c, raw, engine)
    ensures RuleHits(a + [c] + b, raw, engine) == RuleHits(a + b, raw, engine)
  {
    var f := HitPiece(raw, engine);
    var t := a + [c] + b;
    assert t[..|a|] == a && t[|a| + 1..] == b && t[|a|] == c;
    Seqs.FlatMapSplit(t, |a|, f);
    Seqs.FlatMapAppend(a, b, f);
  }

  /** A rule that does not fire (disabled or not matching) changes nothing, wherever it stands. */
  lemma SilentRuleIgnored(e: LogEntry, a: seq<CompiledRule>, c: CompiledRule, b: seq<CompiledRule>, engine: RegexEngine)
    requires !Hit(c, e.raw, engine)
    ensures AlertFor(e, a + [c] + b, engine) == AlertFor(e, a + b, engine)
  {
    SilentRuleNoHits(e.raw, a, c, b, engine);
    assert Contributions(e, a + [c] + b, engine) == Contributions(e, a + b, engine);
  }

  // ---------------------------------------------------------------------------
  // The scoring loop

  lemma ReasonsAppend(cs: seq<Contribution>, c: Contribution)
    ensures Reasons(cs + [c]) == Reasons(cs) + [c.reason]
  {
  }

  lemma FoldStep(cs: seq<Contribution>, c: Contribution)
    ensures TotalWeight(cs + [c]) == TotalWeight(cs) + c.weight
    ensures MaxSeverity(cs + [c]) == Max(MaxSeverity(cs), c.severity)
  {
    assert (cs + [c])[..|cs|] == cs;
  }

  lemma RuleHitsStep(compiled: seq<CompiledRule>, i: nat, raw: string, engine: RegexEngine)
    requires i < |compiled|
    ensures RuleHits(compiled[..i + 1], raw, engine)
      == RuleHits(compiled[..i], raw, engine) + (if Hit(compiled[i], raw, engine) then [RuleContribution(compiled[i])] else [])
  {
    assert compiled[..i + 1][..i] == compiled[..i];
  }

  /** The loop's three accumulators hold the reasons, the summed weight and the greatest severity of `cs`. */
  predicate Tally(reasons: seq<string>, score: int, maxSeverity: int, cs: seq<Contribution>) {
    reasons == Reasons(cs) && score == TotalWeight(cs) && maxSeverity == MaxSeverity(cs)
  }

  lemma TallyPush(reasons: seq<string>, score: int, maxSeverity: int, cs: seq<Contribution>, c: Contribution)
    requires Tally(reasons, score, maxSeverity, cs)
    ensures Tally(reasons + [c.reason], score + c.weight, Max(maxSeverity, c.severity), cs + [c])
  {
    ReasonsAppend(cs, c);
    FoldStep(cs, c);
  }

  /** One turn of the rule loop: a rule that fires adds its contribution to the tally, any other leaves it as it is. */
  lemma ScoreStep(reasons: seq<string>, score: int, maxSeverity: int, levelPart: seq<Contribution>,
                  compiled: seq<CompiledRule>, i: nat, raw: string, engine: RegexEngine)
    requires i < |compiled|
    requires Tally(reasons, score, maxSeverity, levelPart + RuleHits(compiled[..i], raw, engine))
    ensures var c := compiled[i];
      Hit(c, raw, engine) ==>
        Tally(reasons + [c.rule.name], score + c.rule.weight, Max(maxSeverity, c.rule.severity),
              levelPart + RuleHits(compiled[..i + 1], raw, engine))
    ensures !Hit(compiled[i], raw, engine) ==>
      Tally(reasons, score, maxSeverity, levelPart + RuleHits(compiled[..i + 1], raw, engine))
  {
    var before := levelPart + RuleHits(compiled[..i], raw, engine);
    RuleHitsStep(compiled, i, raw, engine);
    if Hit(compiled[i], raw, engine) {
      TallyPush(reasons, score, maxSeverity, before, RuleContribution(compiled[i]));
      assert before + [RuleContribution(compiled[i])] == levelPart + RuleHits(compiled[..i + 1], raw, engine);
    } else {
      assert levelPart + RuleHits(compiled[..i + 1], raw, engine) == before;
    }
  }

  /** The body of `analyzeWithSettings`' scoring loop for one entry. */
  method ScoreEntry(e: LogEntry, compiled: seq<CompiledRule>, engine: RegexEngine) returns (alert: Option<AlertEntry>)
    ensures alert == AlertFor(e, compiled, engine)
  {
    var reasons: seq<string> := [];
    var score := 0;
    var maxSeverity := 0;
    ghost var levelPart := LevelPart(e.level);
    assert Tally(reasons, score, maxSeverity, []);
    if e.level == Error || e.level == Fatal || e.level == Warn {
      TallyPush(reasons, score, maxSeverity, [], LevelContribution(e.level).value);
      reasons := reasons + ["Level:" + LevelName(e.level)];
      score := score + (if e.level == Error then 7 else if e.level == Fatal then 9 else 4);
      maxSeverity := Max(maxSeverity, if e.level == Fatal then 5 else if e.level == Error then 4 else 3);
      assert [] + [LevelContribution(e.level).value] == levelPart;
    }
    assert levelPart + RuleHits(compiled[..0], e.raw, engine) == levelPart;
    for i := 0 to |compiled|
      invariant Tally(reasons, score, maxSeverity, levelPart + RuleHits(compiled[..i], e.raw, engine))
    {
      var r := compiled[i];
      ScoreStep(reasons, score, maxSeverity, levelPart, compiled, i, e.raw, engine);
      if !r.rule.enabled {
        continue;
      }
      if !Matches(engine, r.re, e.raw) {
        continue;
      }
      reasons := reasons + [r.rule.name];
      score := score + r.rule.weight;
      maxSeverity := Max(maxSeverity, r.rule.severity);
    }
    assert compiled[..|compiled|] == compiled;
    assert Tally(reasons, score, maxSeverity, Contributions(e, compiled, engine));
    if |reasons| > 0 {
      alert := Some(AlertEntry(e, reasons, score, maxSeverity, Some(reasons[0])));
    } else {
      alert := None;
    }
  }

  function AlertTest(compiled: seq<CompiledRule>, engine: RegexEngine): LogEntry -> bool {
    e => AlertFor(e, compiled, engine).Some?
  }

  function AlertOf(compiled: seq<CompiledRule>, engine: RegexEngine): (AlertEntry, LogEntry) -> bool {
    (a, e) => AlertFor(e, compiled, engine) == Some(a)
  }

  /** The scoring loop over the time-sorted entries: one alert per flagged entry, in entry order. */
  method ScoreEntries(sorted: seq<LogEntry>, compiled: seq<CompiledRule>, engine: RegexEngine) returns (alerts: seq<AlertEntry>)
    ensures Seqs.Corresponds(alerts, sorted, AlertTest(compiled, engine), AlertOf(compiled, engine))
  {
    ghost var keep, rel := AlertTest(compiled, engine), AlertOf(compiled, engine);
    alerts := [];
    for n := 0 to |sorted|
      invariant Seqs.Corresponds(alerts, sorted[..n], keep, rel)
    {
      var a := ScoreEntry(sorted[n], compiled, engine);
      if a.None? {
        Seqs.CorrespondsSkip(alerts, sorted, n, keep, rel);
      } else {
        Seqs.CorrespondsPush(alerts, a.value, sorted, n, keep, rel);
        alerts := alerts + [a.value];
      }
    }
    assert sorted[..|sorted|] == sorted;
  }

  /** Alerts come out in the time order of their entries, each alert the one its entry earns. */
  lemma AlertsInEntryOrder(alerts: seq<AlertEntry>, sorted: seq<LogEntry>, compiled: seq<CompiledRule>, engine: RegexEngine)
    requires Seqs.Corresponds(alerts, sorted, AlertTest(compiled, engine), AlertOf(compiled, engine))
    requires Seqs.SortedBy(sorted, EntryTs)
    ensures Seqs.SortedBy(alerts, AlertTs)
    ensures forall i :: 0 <= i < |alerts| ==> alerts[i].entry in sorted && AlertFor(alerts[i].entry, compiled, engine) == Some(alerts[i])
  {
    var ks := Seqs.IndicesWhere(sorted, AlertTest(compiled, engine));
    forall i | 0 <= i < |alerts|
      ensures alerts[i].entry == sorted[ks[i]] && AlertFor(alerts[i].entry, compiled, engine) == Some(alerts[i])
    {
      assert AlertOf(compiled, engine)(alerts[i], sorted[ks[i]]);
      AlertShape(sorted[ks[i]], compiled, engine);
    }
    Seqs.CorrespondsOrdered(alerts, sorted, AlertTest(compiled, engine), AlertOf(compiled, engine), EntryTs, AlertTs);
  }
}
