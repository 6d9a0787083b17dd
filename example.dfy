/** The example line, assembled from pieces. */
module ExampleLine {
  const Date: string := "20240115"
  const Clock: string := "-09:30:00.123"
  const Stamp: string := Date + Clock
  const Socket: string := " socket timeout"
  const Target: string := " connecting to host"
  const Tail: string := Socket + Target
  /** `20240115-09:30:00.123 ERROR socket timeout connecting to host` */
  const TimeoutLine: string := Stamp + " ERROR" + Tail

  /** Neither `F` nor `f` occurs in `s`. */
  predicate NoF(s: string) {
    'F' !in s && 'f' !in s
  }

  lemma LineHasNoF()
    ensures NoF(TimeoutLine)
  {
    assert NoF(Date);
    assert NoF(Clock);
    assert NoF(" ERROR");
    assert NoF(Socket);
    assert NoF(Target);
    assert NoF(Stamp) && NoF(Tail);
  }
}

/**
 * A worked example under the default rule table: a compact-format ERROR line
 * about a socket timeout. Besides its level it is flagged by the Timeout rule
 * and, because "error" appears in the line, by the Failure Keyword rule too.
 */
module DefaultsExample {
  import opened Wrappers
  import opened LogTypes
  import opened Runtime
  import opened Settings
  import opened RuleCompiler
  import opened Scoring
  import opened Text
  import opened LineClassifier
  import Seqs
  import opened ExampleLine

  /** Upper-casing the line produces no `F`: it holds neither `F` nor `f`. */
  lemma NoUpperF()
    ensures forall i :: 0 <= i < |ToUpper(TimeoutLine)| ==> ToUpper(TimeoutLine)[i] != 'F'
  {
    LineHasNoF();
    forall i | 0 <= i < |TimeoutLine| ensures ToUpper(TimeoutLine)[i] != 'F' {
      assert TimeoutLine[i] in TimeoutLine;
    }
  }

  lemma NoFatalMarker()
    ensures !Contains(ToUpper(TimeoutLine), " FATAL") && !StartsWith(ToUpper(TimeoutLine), "FATAL")
  {
    var s := ToUpper(TimeoutLine);
    NoUpperF();
    forall i | 0 <= i <= |s| ensures !OccursAt(s, " FATAL", i) {
      if i + 6 <= |s| {
        assert s[i..i + 6][1] == s[i + 1];
      }
    }
    assert s[..5][0] == s[0];
  }

  lemma ErrorMarker()
    ensures Contains(ToUpper(TimeoutLine), " ERROR")
  {
    var s := ToUpper(TimeoutLine);
    assert TimeoutLine[21..27] == " ERROR";
    forall i | 21 <= i < 27 ensures s[i] == " ERROR"[i - 21] {
      assert TimeoutLine[i] == TimeoutLine[21..27][i - 21];
    }
    assert OccursAt(s, " ERROR", 21);
  }

  /** The line is classified ERROR: it carries " ERROR" and no FATAL marker. */
  lemma TimeoutLineIsError()
    ensures DetectLevel(TimeoutLine) == Error
  {
    NoFatalMarker();
    ErrorMarker();
  }

  /** The rules `makeDefaultSettings` writes for `table`, in table order. */
  predicate TableSlots(rules: seq<RuleSlot>, table: seq<DefaultRule>) {
    |rules| == |table| && forall i :: 0 <= i < |rules| ==> rules[i] == DefaultSlot(table[i])
  }

  /** The expression the engine is handed for a table line. */
  function LineRegex(d: DefaultRule): Regex {
    Regex(StripInlineCi(d.pattern), EffectiveFlags(d.flags, d.ci))
  }

  /** The engine accepts every expression of the table. */
  predicate AcceptsTable(engine: RegexEngine, table: seq<DefaultRule>) {
    forall i :: 0 <= i < |table| ==> engine.compiles(LineRegex(table[i]).source, LineRegex(table[i]).flags)
  }

  function TableCompiled(table: seq<DefaultRule>): seq<CompiledRule> {
    seq(|table|, i requires 0 <= i < |table| => CompiledRule(DefaultSlot(table[i]).rule, LineRegex(table[i])))
  }

  /** When the engine accepts every expression, a rule table compiles completely and in order. */
  lemma {:induction false} TableCompiles(rules: seq<RuleSlot>, table: seq<DefaultRule>, engine: RegexEngine)
    requires TableSlots(rules, table) && AcceptsTable(engine, table)
    ensures CompileRules(RuleValues(rules), engine) == TableCompiled(table)
  {
    if rules != [] {
      var n := |rules| - 1;
      var vs := RuleValues(rules);
      TableCompiles(rules[..n], table[..n], engine);
      assert RuleValues(rules[..n]) == vs[..n];
      assert vs[n] == DefaultSlot(table[n]).rule;
      assert CompileOne(vs[n], engine) == [CompiledRule(DefaultSlot(table[n]).rule, LineRegex(table[n]))];
      assert TableCompiled(table) == TableCompiled(table[..n]) + [CompiledRule(DefaultSlot(table[n]).rule, LineRegex(table[n]))];
    }
  }

  /** On `line`, exactly the expressions of table lines `hits` find a match. */
  predicate MatchesExactly(engine: RegexEngine, table: seq<DefaultRule>, line: string, hits: set<nat>) {
    forall i :: 0 <= i < |table| ==> (engine.test(LineRegex(table[i]).source, LineRegex(table[i]).flags, line) <==> i in hits)
  }

  /** Every compiled table rule is enabled, so it fires exactly when its expression matches. */
  lemma TableHit(table: seq<DefaultRule>, raw: string, engine: RegexEngine, hits: set<nat>, k: nat)
    requires k < |table| && MatchesExactly(engine, table, raw, hits)
    ensures Hit(TableCompiled(table)[k], raw, engine) <==> k in hits
  {
  }

  /** No rule of `cs` fires on `raw`. */
  predicate Silent(cs: seq<CompiledRule>, raw: string, engine: RegexEngine) {
    forall k :: 0 <= k < |cs| ==> !Hit(cs[k], raw, engine)
  }

  lemma SilentSlice(cs: seq<CompiledRule>, raw: string, engine: RegexEngine, lo: nat, hi: nat)
    requires lo <= hi <= |cs| && forall k :: lo <= k < hi ==> !Hit(cs[k], raw, engine)
    ensures Silent(cs[lo..hi], raw, engine)
  {
    forall k | 0 <= k < hi - lo ensures !Hit(cs[lo..hi][k], raw, engine) {
      assert cs[lo..hi][k] == cs[lo + k];
    }
  }

  lemma NoHits(cs: seq<CompiledRule>, raw: string, engine: RegexEngine)
    requires Silent(cs, raw, engine)
    ensures RuleHits(cs, raw, engine) == []
  {
    Seqs.FlatMapEmpty(cs, HitPiece(raw, engine));
  }

  lemma OneHit(c: CompiledRule, raw: string, engine: RegexEngine)
    requires Hit(c, raw, engine)
    ensures RuleHits([c], raw, engine) == [RuleContribution(c)]
  {
    var f := HitPiece(raw, engine);
    assert [c][..0] == [];
    assert Seqs.FlatMap([c], f) == Seqs.FlatMap([c][..0], f) + f(c);
  }

  /** Of `cs`, only the rules at `i` and `j` fire: their contributions, in that order. */
  lemma OnlyTwoFire(cs: seq<CompiledRule>, raw: string, engine: RegexEngine, i: nat, j: nat)
    requires i < j < |cs| && Hit(cs[i], raw, engine) && Hit(cs[j], raw, engine)
    requires Silent(cs[..i], raw, engine) && Silent(cs[i + 1..j], raw, engine) && Silent(cs[j + 1..], raw, engine)
    ensures RuleHits(cs, raw, engine) == [RuleContribution(cs[i]), RuleContribution(cs[j])]
  {
    var f := HitPiece(raw, engine);
    var a, b, c := cs[..i], cs[i + 1..j], cs[j + 1..];
    NoHits(a, raw, engine);
    NoHits(b, raw, engine);
    NoHits(c, raw, engine);
    OneHit(cs[i], raw, engine);
    OneHit(cs[j], raw, engine);
    assert cs == a + [cs[i]] + b + [cs[j]] + c;
    Seqs.FlatMapAppend(a + [cs[i]] + b + [cs[j]], c, f);
    Seqs.FlatMapAppend(a + [cs[i]] + b, [cs[j]], f);
    Seqs.FlatMapAppend(a + [cs[i]], b, f);
    Seqs.FlatMapAppend(a, [cs[i]], f);
  }

  /** Only table lines `i` and `j` (`i < j`) fire: their two contributions, in table order. */
  lemma TwoHits(table: seq<DefaultRule>, raw: string, engine: RegexEngine, i: nat, j: nat)
    requires i < j < |table| && MatchesExactly(engine, table, raw, {i, j})
    ensures var cs := TableCompiled(table);
      RuleHits(cs, raw, engine) == [RuleContribution(cs[i]), RuleContribution(cs[j])]
  {
    var cs := TableCompiled(table);
    forall k | 0 <= k < |cs| ensures Hit(cs[k], raw, engine) <==> k == i || k == j {
      TableHit(table, raw, engine, {i, j}, k);
    }
    SilentSlice(cs, raw, engine, 0, i);
    SilentSlice(cs, raw, engine, i + 1, j);
    SilentSlice(cs, raw, engine, j + 1, |cs|);
    assert cs[0..i] == cs[..i] && cs[j + 1..|cs|] == cs[j + 1..];
    OnlyTwoFire(cs, raw, engine, i, j);
  }

  /**
   * Under the defaults, an entry of the example line whose Timeout (line 3)
   * and Failure Keyword (line 11) expressions match gets the reasons
   * `Level:ERROR, Timeout, Failure Keyword`, score 7 + 5 + 5 = 17 and
   * severity 4.
   */
  lemma TimeoutLineScores17(e: LogEntry, rules: seq<RuleSlot>, engine: RegexEngine)
    requires e.raw == TimeoutLine && e.level == DetectLevel(e.raw)
    requires TableSlots(rules, DefaultRules) && AcceptsTable(engine, DefaultRules)
    requires MatchesExactly(engine, DefaultRules, TimeoutLine, {3, 11})
    ensures AlertFor(e, CompileRules(RuleValues(rules), engine), engine)
      == Some(AlertEntry(e, ["Level:ERROR", "Timeout", "Failure Keyword"], 17, 4, Some("Level:ERROR")))
  {
    TimeoutLineIsError();
    TableCompiles(rules, DefaultRules, engine);
    TwoHits(DefaultRules, e.raw, engine, 3, 11);
    TimeoutAndFailureRows();
    ErrorWithTwoRules(e, TableCompiled(DefaultRules), engine);
  }

  /** Lines 3 and 11 of the default table. */
  lemma TimeoutAndFailureRows()
    ensures |DefaultRules| == 13
    ensures DefaultRules[3].name == "Timeout" && DefaultRules[11].name == "Failure Keyword"
  {
  }

  /** An ERROR entry on which two rules of weight 5 and severity 3 fire. */
  lemma ErrorWithTwoRules(e: LogEntry, compiled: seq<CompiledRule>, engine: RegexEngine)
    requires e.level == Error
    requires |compiled| == 13 && compiled[3].rule.weight == compiled[11].rule.weight == 5
    requires compiled[3].rule.severity == compiled[11].rule.severity == 3
    requires RuleHits(compiled, e.raw, engine) == [RuleContribution(compiled[3]), RuleContribution(compiled[11])]
    ensures AlertFor(e, compiled, engine)
      == Some(AlertEntry(e, ["Level:ERROR", compiled[3].rule.name, compiled[11].rule.name], 17, 4, Some("Level:ERROR")))
  {
    var cs := Contributions(e, compiled, engine);
    assert "Level:" + LevelName(Error) == "Level:ERROR";
    assert LevelContribution(Error) == Some(Contribution("Level:ERROR", 7, 4));
    assert LevelPart(e.level) == [Contribution("Level:ERROR", 7, 4)];
    assert cs == [Contribution("Level:ERROR", 7, 4), RuleContribution(compiled[3]), RuleContribution(compiled[11])];
    assert cs[..2][..1] == cs[..1] && cs[..1][..0] == [];
    assert TotalWeight(cs[..1]) == 7;
    assert TotalWeight(cs[..2]) == 12;
    assert TotalWeight(cs) == 17;
    assert MaxSeverity(cs[..1]) == 4;
    assert MaxSeverity(cs[..2]) == 4;
    assert MaxSeverity(cs) == 4;
    assert Reasons(cs) == ["Level:ERROR", compiled[3].rule.name, compiled[11].rule.name];
  }
}
