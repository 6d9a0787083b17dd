/**
 * Analyzer settings: the smell rules, the clustering options and the
 * per-source time-zone offsets, with the built-in default rule table.
 */
module Settings {
  import opened Wrappers

  datatype GroupBy = ByReason | BySourceReason

  /** A smell rule. An absent `flags` means no extra flags, an absent `ci` means false. */
  datatype SmellRuleConfig = SmellRuleConfig(
    id: string, name: string, enabled: bool, weight: int, severity: int,
    pattern: string, flags: Option<string>, ci: Option<bool>)

  /** `windowSec` may be missing from stored settings; the analysis then uses 10. */
  datatype ClusterSettings = ClusterSettings(windowSec: Option<int>, groupBy: GroupBy)

  /** One property of the `rules` record: its key and its value. */
  datatype RuleSlot = RuleSlot(key: string, rule: SmellRuleConfig)

  /** The `rules` record is kept as its properties in insertion order. */
  datatype AnalyzerSettings = AnalyzerSettings(rules: seq<RuleSlot>, cluster: ClusterSettings, tzOffsetsMinute: map<string, int>)

  function Keys(rules: seq<RuleSlot>): set<string> {
    set i | 0 <= i < |rules| :: rules[i].key
  }

  /** A record has each key at most once. */
  predicate UniqueKeys(rules: seq<RuleSlot>) {
    forall i, j :: 0 <= i < j < |rules| ==> rules[i].key != rules[j].key
  }

  /**
   * `rules[key] = rule`: an existing property keeps its place and takes the
   * new value; a new property goes last.
   */
  function PutRule(rules: seq<RuleSlot>, key: string, rule: SmellRuleConfig): (r: seq<RuleSlot>)
    ensures |rules| <= |r| <= |rules| + 1
  {
    if rules == [] then [RuleSlot(key, rule)]
    else if rules[0].key == key then [RuleSlot(key, rule)] + rules[1..]
    else [rules[0]] + PutRule(rules[1..], key, rule)
  }

  /** Assignment replaces the value of an existing key in place and appends a new key. */
  lemma {:induction false} PutRuleShape(rules: seq<RuleSlot>, key: string, rule: SmellRuleConfig)
    ensures var r := PutRule(rules, key, rule);
      && (key in Keys(rules) ==> |r| == |rules|)
      && (key !in Keys(rules) ==> r == rules + [RuleSlot(key, rule)])
  {
    if rules != [] {
      KeysCons(rules);
      if rules[0].key != key {
        PutRuleShape(rules[1..], key, rule);
        assert rules == [rules[0]] + rules[1..];
      }
    }
  }

  /** On a record, assignment changes the value under `key` and no other. */
  lemma {:induction false} PutRuleValues(rules: seq<RuleSlot>, key: string, rule: SmellRuleConfig)
    requires UniqueKeys(rules)
    ensures var r := PutRule(rules, key, rule);
      forall i :: 0 <= i < |rules| ==> r[i] == (if rules[i].key == key then RuleSlot(key, rule) else rules[i])
  {
    if rules != [] && rules[0].key != key {
      PutRuleValues(rules[1..], key, rule);
    }
  }

  /** Assignment adds `key` to the keys and removes none. */
  lemma {:induction false} PutRuleKeySet(rules: seq<RuleSlot>, key: string, rule: SmellRuleConfig)
    ensures Keys(PutRule(rules, key, rule)) == Keys(rules) + {key}
  {
    var slot := RuleSlot(key, rule);
    if rules == [] {
      KeysCons([slot]);
    } else {
      KeysCons(rules);
      if rules[0].key == key {
        var r := [slot] + rules[1..];
        KeysCons(r);
        assert r[1..] == rules[1..];
      } else {
        var rest := PutRule(rules[1..], key, rule);
        PutRuleKeySet(rules[1..], key, rule);
        var r := [rules[0]] + rest;
        KeysCons(r);
        assert r[1..] == rest;
      }
    }
  }

  /** Assignment keeps the keys of a record unique. */
  lemma {:induction false} PutRuleUnique(rules: seq<RuleSlot>, key: string, rule: SmellRuleConfig)
    requires UniqueKeys(rules)
    ensures UniqueKeys(PutRule(rules, key, rule))
  {
    if rules != [] {
      var r := PutRule(rules, key, rule);
      if rules[0].key == key {
        assert r[1..] == rules[1..];
      } else {
        var rest := PutRule(rules[1..], key, rule);
        PutRuleUnique(rules[1..], key, rule);
        PutRuleKeySet(rules[1..], key, rule);
        KeysCons(rules);
        assert r == [rules[0]] + rest;
        forall j | 0 < j < |r| ensures r[0].key != r[j].key {
          assert r[j] == rest[j - 1];
          assert r[j].key in Keys(rest);
        }
      }
    }
  }

  lemma KeysCons(s: seq<RuleSlot>)
    requires s != []
    ensures Keys(s) == {s[0].key} + Keys(s[1..])
  {
    forall k | k in Keys(s) ensures k in {s[0].key} + Keys(s[1..]) {
      var i :| 0 <= i < |s| && s[i].key == k;
      if i > 0 { assert s[1..][i - 1].key == k; }
    }
    forall k | k in Keys(s[1..]) ensures k in Keys(s) {
      var i :| 0 <= i < |s[1..]| && s[1..][i].key == k;
      assert s[i + 1].key == k;
    }
  }

  /** `Object.values(rules)`, taken in insertion order. */
  function RuleValues(rules: seq<RuleSlot>): (r: seq<SmellRuleConfig>)
    ensures |r| == |rules| && forall i :: 0 <= i < |rules| ==> r[i] == rules[i].rule
  {
    seq(|rules|, i requires 0 <= i < |rules| => rules[i].rule)
  }

  /**
   * `Object.values` after `rules[key] = rule`: with a new key the rule is
   * listed last after the old values; with an existing key the values keep
   * their order and only that key's value is replaced.
   */
  lemma RuleValuesPut(rules: seq<RuleSlot>, key: string, rule: SmellRuleConfig)
    requires UniqueKeys(rules)
    ensures key !in Keys(rules) ==> RuleValues(PutRule(rules, key, rule)) == RuleValues(rules) + [rule]
    ensures key in Keys(rules) ==>
      var vs := RuleValues(PutRule(rules, key, rule));
      |vs| == |rules| && forall i :: 0 <= i < |rules| ==> vs[i] == (if rules[i].key == key then rule else rules[i].rule)
  {
    PutRuleShape(rules, key, rule);
    PutRuleValues(rules, key, rule);
  }

  /** One line of the built-in rule table. */
  datatype DefaultRule = DefaultRule(id: string, name: string, pattern: string, flags: Option<string>, ci: Option<bool>)

  const DefaultRules: seq<DefaultRule> := [
    DefaultRule("exception", "Exception", "exception|stack ?trace|throw", None, Some(true)),
    DefaultRule("crash", "Crash/Signal", "crash|fatal signal|segmentation|sig(?:abrt|segv)", None, Some(true)),
    DefaultRule("anr", "ANR/Watchdog", "\\bANR\\b|watchdog", Some("i"), None),
    DefaultRule("timeout", "Timeout", "timeout|timed out|socket timeout", None, Some(true)),
    DefaultRule("network", "Network", "econn(?:reset|refused)|connection (?:refused|reset|lost)|host unreachable", None, Some(true)),
    DefaultRule("auth", "Auth", "\\b401\\b|unauthorized|forbidden|\\b403\\b", Some("i"), None),
    DefaultRule("http5xx", "HTTP 5xx", "\\b5\\d\\d\\b|server error", Some("i"), None),
    DefaultRule("notfound", "Not Found", "\\b404\\b|not found", Some("i"), None),
    DefaultRule("permission", "Permission", "permission denied|securityexception", None, Some(true)),
    DefaultRule("memory", "Memory", "out of memory|\\boom\\b|oomkiller", Some("i"), None),
    DefaultRule("database", "Database", "sqlite|db locked|deadlock", None, Some(true)),
    DefaultRule("failure", "Failure Keyword", "\\bfail(?:ed|ure)?\\b|error|cannot|invalid|broken", Some("i"), None),
    DefaultRule("disconnect", "Disconnect", "disconnect|not responding|unreachable", None, Some(true))
  ]

  const DefaultWindowSec: int := 10

  /** The ids of the default table are pairwise distinct. */
  lemma DefaultIdsDistinct()
    ensures forall i, j :: 0 <= i < j < |DefaultRules| ==> DefaultRules[i].id != DefaultRules[j].id
  {
  }

  /** The property `makeDefaultSettings` writes for one table line. */
  function DefaultSlot(d: DefaultRule): RuleSlot {
    RuleSlot(d.id, SmellRuleConfig(d.id, d.name, true, 5, 3, d.pattern, d.flags, d.ci))
  }

  lemma NotInKeys(rules: seq<RuleSlot>, k: string)
    requires forall i :: 0 <= i < |rules| ==> rules[i].key != k
    ensures k !in Keys(rules)
  {
  }

  /** The loop of `makeDefaultSettings`: one property per table line, assigned in table order. */
  method PutDefaults(table: seq<DefaultRule>) returns (rules: seq<RuleSlot>)
    requires forall i, j :: 0 <= i < j < |table| ==> table[i].id != table[j].id
    ensures |rules| == |table| && UniqueKeys(rules)
    ensures forall i :: 0 <= i < |table| ==> rules[i] == DefaultSlot(table[i])
  {
    rules := [];
    for n := 0 to |table|
      invariant |rules| == n && UniqueKeys(rules)
      invariant forall i :: 0 <= i < n ==> rules[i] == DefaultSlot(table[i])
    {
      var d := table[n];
      NotInKeys(rules, d.id);
      PutRuleShape(rules, d.id, DefaultSlot(d).rule);
      PutRuleUnique(rules, d.id, DefaultSlot(d).rule);
      rules := PutRule(rules, d.id, DefaultSlot(d).rule);
    }
  }

  /**
   * `makeDefaultSettings()`: one enabled rule per table line, in table order,
   * keyed by its id, weight 5 and severity 3, the other fields copied;
   * 10-second windows grouped by reason; no time-zone offsets.
   */
  method MakeDefaultSettings() returns (s: AnalyzerSettings)
    ensures |s.rules| == |DefaultRules| == 13
    ensures UniqueKeys(s.rules)
    ensures forall i :: 0 <= i < |DefaultRules| ==>
      var d, slot := DefaultRules[i], s.rules[i];
      && slot.key == d.id && slot.rule.id == slot.key
      && slot.rule.name == d.name && slot.rule.pattern == d.pattern
      && slot.rule.flags == d.flags && slot.rule.ci == d.ci
      && slot.rule.enabled && slot.rule.weight == 5 && slot.rule.severity == 3
    ensures s.cluster == ClusterSettings(Some(10), ByReason)
    ensures s.tzOffsetsMinute == map[]
  {
    DefaultIdsDistinct();
    var rules := PutDefaults(DefaultRules);
    s := AnalyzerSettings(rules, ClusterSettings(Some(DefaultWindowSec), ByReason), map[]);
  }
}
