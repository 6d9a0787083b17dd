/**
 * `compileRegex`: a rule's pattern and flags as handed to the regular
 * expression engine, or nothing when the engine rejects them.
 */
module RuleCompiler {
  import opened Wrappers
  import opened Text
  import opened Runtime
  import opened Settings
  import Seqs

  // ---------------------------------------------------------------------------
  // Inline case-insensitivity groups

  predicate IsAsciiLetter(c: char) {
    ('a' <= c <= 'z') || ('A' <= c <= 'Z')
  }

  /** The length of the run of ASCII letters starting at `i`. */
  function LetterRun(s: string, i: nat): (k: nat)
    requires i <= |s|
    ensures i + k <= |s|
    ensures i + k == |s| || !IsAsciiLetter(s[i + k])
    decreases |s| - i
  {
    if i < |s| && IsAsciiLetter(s[i]) then 1 + LetterRun(s, i + 1) else 0
  }

  /** Every character of the run is a letter. */
  lemma {:induction false} LetterRunLetters(s: string, i: nat)
    requires i <= |s|
    ensures forall j :: i <= j < i + LetterRun(s, i) ==> IsAsciiLetter(s[j])
    decreases |s| - i
  {
    if i < |s| && IsAsciiLetter(s[i]) {
      LetterRunLetters(s, i + 1);
    }
  }

  /**
   * The length of the inline group `(?letters)` that `s` starts with, matched
   * case-insensitively as `/\(\?[a-z]+\)/i` does, or 0 when it starts with none.
   */
  function GroupLength(s: string): (n: nat)
    ensures n == 0 || (4 <= n <= |s| && s[0] == '(' && s[1] == '?' && s[n - 1] == ')')
  {
    if 2 <= |s| && s[0] == '(' && s[1] == '?' then
      var k := LetterRun(s, 2);
      if 0 < k && 2 + k < |s| && s[2 + k] == ')' then 3 + k else 0
    else 0
  }

  /** `s[..n]` is an inline group: `(?`, one or more ASCII letters, `)`. */
  predicate GroupAt(s: string, n: nat) {
    4 <= n <= |s| && s[0] == '(' && s[1] == '?' && s[n - 1] == ')'
    && forall j :: 2 <= j < n - 1 ==> IsAsciiLetter(s[j])
  }

  /**
   * `GroupLength` finds the inline group `s` starts with: when it is not 0 it
   * is a group, and a group at the start can only have that length, so 0
   * means `s` starts with none.
   */
  lemma GroupLengthSpec(s: string)
    ensures GroupLength(s) > 0 ==> GroupAt(s, GroupLength(s))
    ensures forall m :: GroupAt(s, m) ==> m == GroupLength(s)
  {
    if 2 <= |s| {
      LetterRunLetters(s, 2);
    }
  }

  /** `(?i)` in either case: the only group the replacement deletes. */
  predicate IsCiGroup(g: string) {
    |g| == 4 && CiGroupAt(g, 0)
  }

  /** A `(?i)` or `(?I)` starts at index `i` of `s`. */
  predicate CiGroupAt(s: string, i: nat) {
    i + 4 <= |s| && s[i] == '(' && s[i + 1] == '?' && (s[i + 2] == 'i' || s[i + 2] == 'I') && s[i + 3] == ')'
  }

  /**
   * `pattern.replace(/\(\?[a-z]+\)/gi, m => m.toLowerCase() === '(?i)' ? '' : m)`:
   * a single left-to-right pass that deletes each `(?i)` group it meets and
   * keeps every other group and character.
   */
  function StripInlineCi(s: string): (r: string)
    ensures |r| <= |s|
    decreases |s|
  {
    if s == [] then []
    else
      var n := GroupLength(s);
      if n == 0 then [s[0]] + StripInlineCi(s[1..])
      else (if IsCiGroup(s[..n]) then [] else s[..n]) + StripInlineCi(s[n..])
  }

  /** No `(?i)` or `(?I)` occurs anywhere in `s`. */
  predicate NoCiGroup(s: string) {
    forall i: nat :: i < |s| ==> !CiGroupAt(s, i)
  }

  lemma NoCiGroupSuffix(s: string, n: nat)
    requires NoCiGroup(s) && n <= |s|
    ensures NoCiGroup(s[n..])
  {
    forall i: nat | i < |s[n..]| ensures !CiGroupAt(s[n..], i) {
      assert !CiGroupAt(s, n + i);
    }
  }

  /** A group at the front of a pattern without `(?i)` is not itself `(?i)`. */
  lemma LeadingGroupKept(s: string)
    requires NoCiGroup(s) && s != [] && GroupLength(s) > 0
    ensures !IsCiGroup(s[..GroupLength(s)])
  {
    assert !CiGroupAt(s, 0);
  }

  /** On a pattern without `(?i)`, the pass keeps its first character or group and goes on with the rest. */
  lemma StripFirstStep(s: string) returns (k: nat)
    requires NoCiGroup(s) && s != []
    ensures 0 < k <= |s| && NoCiGroup(s[k..])
    ensures StripInlineCi(s) == s[..k] + StripInlineCi(s[k..])
  {
    var n := GroupLength(s);
    if n == 0 {
      k := 1;
      assert s[..1] == [s[0]];
    } else {
      k := n;
      LeadingGroupKept(s);
    }
    NoCiGroupSuffix(s, k);
  }

  /** A pattern holding no `(?i)` or `(?I)` anywhere passes through unchanged. */
  lemma {:induction false} StripWithoutCiGroup(s: string)
    requires NoCiGroup(s)
    ensures StripInlineCi(s) == s
    decreases |s|
  {
    if s != [] {
      var k := StripFirstStep(s);
      StripWithoutCiGroup(s[k..]);
      assert s[..k] + s[k..] == s;
    }
  }

  /** `(?i)` or `(?I)`, with `c` the letter. */
  function CiGroup(c: char): string {
    ['(', '?', c, ')']
  }

  /** A leading `(?i)` or `(?I)` is dropped and the rest is processed as if it stood alone. */
  lemma StripLeadingCi(c: char, s: string)
    requires c == 'i' || c == 'I'
    ensures StripInlineCi(CiGroup(c) + s) == StripInlineCi(s)
  {
    var a := CiGroup(c) + s;
    assert LetterRun(a, 3) == 0 && LetterRun(a, 2) == 1;
    assert GroupLength(a) == 4 && IsCiGroup(a[..4]) && a[4..] == s;
  }

  /** Where no group starts, the pass keeps the first character and goes on with the rest. */
  lemma StripPlainStep(s: string)
    requires s != [] && GroupLength(s) == 0
    ensures StripInlineCi(s) == [s[0]] + StripInlineCi(s[1..])
  {
  }

  /** `(?(` opens no group: the pass keeps `(?` and goes on at the inner `(`. */
  lemma StripOuterPrefix(c: char)
    ensures StripInlineCi(['(', '?', '(', '?', c, ')', c, ')']) == ['(', '?'] + StripInlineCi(['(', '?', c, ')', c, ')'])
  {
    var s := ['(', '?', '(', '?', c, ')', c, ')'];
    assert LetterRun(s, 2) == 0;
    StripPlainStep(s);
    var s1 := ['?', '(', '?', c, ')', c, ')'];
    assert s[1..] == s1;
    StripPlainStep(s1);
    assert s1[1..] == ['(', '?', c, ')', c, ')'];
  }

  /**
   * The pass is not repeated: deleting the inner group of `(?(?i)i)` leaves
   * a `(?i)` behind (in either case).
   */
  lemma StripSinglePass(c: char)
    requires c == 'i' || c == 'I'
    ensures StripInlineCi(['(', '?', '(', '?', c, ')', c, ')']) == CiGroup(c)
  {
    StripOuterPrefix(c);
    var tail := [c, ')'];
    assert ['(', '?', c, ')', c, ')'] == CiGroup(c) + tail;
    StripLeadingCi(c, tail);
    StripPlainStep(tail);
    assert tail[1..] == [')'];
    StripPlainStep([')']);
    assert [')'][1..] == [];
  }

  // ---------------------------------------------------------------------------
  // Flags

  /** No line terminator among `s[i..j]`: the stretch `.*` can span. */
  predicate OnOneLine(s: string, i: int, j: int) {
    forall k :: 0 <= i <= k < j <= |s| ==> !IsLineTerminator(s[k])
  }

  /**
   * `(.)(?=.*\1)` matches at position 0 of `s`: its first character is not a
   * line terminator and reappears later on the same line.
   */
  predicate RepeatedLater(s: string) {
    && s != []
    && !IsLineTerminator(s[0])
    && exists j :: 1 <= j < |s| && s[j] == s[0] && OnOneLine(s, 1, j)
  }

  /**
   * `f.replace(/(.)(?=.*\1)/g, '')`: every character that reappears later on
   * its line is deleted, so each flag survives at its last occurrence.
   */
  function DedupFlags(s: string): (r: string)
    ensures |r| <= |s|
  {
    if s == [] then []
    else (if RepeatedLater(s) then [] else [s[0]]) + DedupFlags(s[1..])
  }

  /** Deduplication keeps exactly the characters it was given (each one's last occurrence survives). */
  lemma {:induction false} DedupFlagsChars(s: string)
    ensures forall c :: c in DedupFlags(s) <==> c in s
  {
    if s != [] {
      DedupFlagsChars(s[1..]);
      if RepeatedLater(s) {
        var j :| 1 <= j < |s| && s[j] == s[0] && OnOneLine(s, 1, j);
        assert s[0] == s[1..][j - 1];
      }
      forall c ensures c in s <==> c == s[0] || c in s[1..] {
        assert s == [s[0]] + s[1..];
      }
    }
  }

  /**
   * The positions from `from` on whose character does not reappear later on
   * its line (its last occurrence there, or a line terminator), ascending.
   */
  function LastOccurrences(s: string, from: nat): (ks: seq<nat>)
    requires from <= |s|
    ensures forall k :: 0 <= k < |ks| ==> from <= ks[k] < |s| && !RepeatedLater(s[ks[k]..])
    ensures forall k, m :: 0 <= k < m < |ks| ==> ks[k] < ks[m]
    ensures forall i :: from <= i < |s| && !RepeatedLater(s[i..]) ==> i in ks
    decreases |s| - from
  {
    if from == |s| then []
    else (if RepeatedLater(s[from..]) then [] else [from]) + LastOccurrences(s, from + 1)
  }

  lemma {:induction false} DedupFlagsFrom(s: string, from: nat)
    requires from <= |s|
    ensures var ks := LastOccurrences(s, from);
      |DedupFlags(s[from..])| == |ks| && forall k :: 0 <= k < |ks| ==> DedupFlags(s[from..])[k] == s[ks[k]]
    decreases |s| - from
  {
    if from < |s| {
      DedupFlagsFrom(s, from + 1);
      assert s[from..][1..] == s[from + 1..];
    }
  }

  /**
   * Deduplication keeps, in their original order, exactly the characters at
   * their last occurrence on their line, and deletes every other one.
   */
  lemma DedupFlagsLastOccurrences(s: string)
    ensures var ks := LastOccurrences(s, 0);
      |DedupFlags(s)| == |ks| && forall k :: 0 <= k < |ks| ==> DedupFlags(s)[k] == s[ks[k]]
  {
    DedupFlagsFrom(s, 0);
    assert s[0..] == s;
  }

  predicate NoRepeats(r: string) {
    forall i, j :: 0 <= i < j < |r| ==> r[i] != r[j]
  }

  /** On a single line (flags never hold line terminators in practice), no flag is left twice. */
  lemma {:induction false} DedupFlagsDistinct(s: string)
    requires forall k :: 0 <= k < |s| ==> !IsLineTerminator(s[k])
    ensures NoRepeats(DedupFlags(s))
  {
    if s != [] {
      var tail := s[1..];
      forall k | 0 <= k < |tail| ensures !IsLineTerminator(tail[k]) {
        assert tail[k] == s[k + 1];
      }
      DedupFlagsDistinct(tail);
      DedupFlagsChars(tail);
      var rest := DedupFlags(tail);
      var r := DedupFlags(s);
      if !RepeatedLater(s) {
        assert r == [s[0]] + rest;
        forall q | 0 <= q < |tail| ensures tail[q] != s[0] {
          assert OnOneLine(s, 1, q + 1);
          assert tail[q] == s[q + 1];
        }
        assert s[0] !in rest;
        forall i, j | 0 <= i < j < |r| ensures r[i] != r[j] {
          assert r[j] == rest[j - 1];
          if i > 0 {
            assert r[i] == rest[i - 1];
          }
        }
      } else {
        assert r == rest;
      }
    }
  }

  /** The flags handed to the engine: the rule's flags, then `i` when `ci` is set, deduplicated. */
  function EffectiveFlags(flags: Option<string>, ci: Option<bool>): string {
    DedupFlags(flags.GetOr("") + (if ci.GetOr(false) then "i" else ""))
  }

  /** A rule with `ci` set is always compiled case-insensitively, whatever its own flags say. */
  lemma CiAddsIgnoreCase(flags: Option<string>)
    ensures 'i' in EffectiveFlags(flags, Some(true))
  {
    DedupFlagsChars(flags.GetOr("") + "i");
    assert (flags.GetOr("") + "i")[|flags.GetOr("")|] == 'i';
  }

  // ---------------------------------------------------------------------------
  // Compilation

  /** A compiled expression: the source and flags `new RegExp` accepted. */
  datatype Regex = Regex(source: string, flags: string)

  /**
   * `compileRegex(pattern, flags, ci)`: the expression built from the
   * stripped pattern and the effective flags, or nothing when the engine
   * throws on them (an empty flag string is the same as no flags).
   */
  function CompileRegex(pattern: string, flags: Option<string>, ci: Option<bool>, engine: RegexEngine): (r: Option<Regex>)
    ensures r.None? <==> !engine.compiles(StripInlineCi(pattern), EffectiveFlags(flags, ci))
    ensures r.Some? ==> r.value.source == StripInlineCi(pattern) && r.value.flags == EffectiveFlags(flags, ci)
  {
    var source := StripInlineCi(pattern);
    var f := EffectiveFlags(flags, ci);
    if engine.compiles(source, f) then Some(Regex(source, f)) else None
  }

  /**
   * What a compiled expression carries: a source and flags the engine
   * accepts; a pattern without `(?i)` groups passed on verbatim; exactly the
   * rule's flag characters, plus `i` when `ci` is set; and, for flags on one
   * line, no flag twice.
   */
  lemma CompiledFlags(pattern: string, flags: Option<string>, ci: Option<bool>, engine: RegexEngine)
    requires CompileRegex(pattern, flags, ci, engine).Some?
    ensures var re := CompileRegex(pattern, flags, ci, engine).value;
      && engine.compiles(re.source, re.flags)
      && (NoCiGroup(pattern) ==> re.source == pattern)
      && (forall c :: c in re.flags <==> c in flags.GetOr("") || (c == 'i' && ci == Some(true)))
      && (ci == Some(true) ==> 'i' in re.flags)
      && ((forall k :: 0 <= k < |flags.GetOr("")| ==> !IsLineTerminator(flags.GetOr("")[k])) ==> NoRepeats(re.flags))
  {
    var f := flags.GetOr("");
    var all := f + (if ci.GetOr(false) then "i" else "");
    if NoCiGroup(pattern) {
      StripWithoutCiGroup(pattern);
    }
    DedupFlagsChars(all);
    forall c ensures c in all <==> c in f || (c == 'i' && ci == Some(true)) {
      if ci.GetOr(false) {
        assert all == f + ['i'];
      } else {
        assert all == f;
      }
    }
    if forall k :: 0 <= k < |f| ==> !IsLineTerminator(f[k]) {
      forall k | 0 <= k < |all| ensures !IsLineTerminator(all[k]) {
        if k < |f| {
          assert all[k] == f[k];
        }
      }
      DedupFlagsDistinct(all);
    }
  }

  /** A rule together with its compiled expression. */
  datatype CompiledRule = CompiledRule(rule: SmellRuleConfig, re: Regex)

  /** `re.test(text)`. */
  predicate Matches(engine: RegexEngine, re: Regex, text: string) {
    engine.test(re.source, re.flags, text)
  }

  /** `[{...r, re}]` when the rule's pattern compiles, else nothing. */
  function CompileOne(r: SmellRuleConfig, engine: RegexEngine): (cs: seq<CompiledRule>)
    ensures |cs| <= 1
    ensures cs == [] <==> CompileRegex(r.pattern, r.flags, r.ci, engine).None?
    ensures cs != [] ==> cs[0].rule == r && Some(cs[0].re) == CompileRegex(r.pattern, r.flags, r.ci, engine)
  {
    match CompileRegex(r.pattern, r.flags, r.ci, engine)
    case Some(re) => [CompiledRule(r, re)]
    case None => []
  }

  function CompilePiece(engine: RegexEngine): SmellRuleConfig -> seq<CompiledRule> {
    r => CompileOne(r, engine)
  }

  /**
   * `ruleEntries.map(r => ({...r, re: compileRegex(...)})).filter(r => r.re)`:
   * the rules whose pattern compiles, in rule order.
   */
  function CompileRules(rules: seq<SmellRuleConfig>, engine: RegexEngine): seq<CompiledRule>
  {
    Seqs.FlatMap(rules, CompilePiece(engine))
  }

  /** Every compiled rule comes from the input and carries the expression its own pattern compiles to. */
  lemma CompileRulesSound(rules: seq<SmellRuleConfig>, engine: RegexEngine)
    ensures var cs := CompileRules(rules, engine);
      forall c :: c in cs ==> (c.rule in rules
        && Some(c.re) == CompileRegex(c.rule.pattern, c.rule.flags, c.rule.ci, engine))
  {
    forall c | c in CompileRules(rules, engine)
      ensures c.rule in rules && Some(c.re) == CompileRegex(c.rule.pattern, c.rule.flags, c.rule.ci, engine)
    {
      Seqs.FlatMapMember(rules, CompilePiece(engine), c);
    }
  }

  /** Every rule that compiles is kept. */
  lemma CompileRulesComplete(rules: seq<SmellRuleConfig>, engine: RegexEngine, i: nat)
    requires i < |rules| && CompileRegex(rules[i].pattern, rules[i].flags, rules[i].ci, engine).Some?
    ensures CompiledRule(rules[i], CompileRegex(rules[i].pattern, rules[i].flags, rules[i].ci, engine).value) in CompileRules(rules, engine)
  {
    Seqs.FlatMapSplit(rules, i, CompilePiece(engine));
  }

  /** A rule the engine rejects is dropped wherever it stands, and the others compile as before. */
  lemma CompileRulesSkipsRejected(a: seq<SmellRuleConfig>, r: SmellRuleConfig, b: seq<SmellRuleConfig>, engine: RegexEngine)
    requires CompileRegex(r.pattern, r.flags, r.ci, engine).None?
    ensures CompileRules(a + [r] + b, engine) == CompileRules(a + b, engine)
  {
    var f := CompilePiece(engine);
    var t := a + [r] + b;
    assert t[..|a|] == a && t[|a| + 1..] == b && t[|a|] == r;
    Seqs.FlatMapSplit(t, |a|, f);
    Seqs.FlatMapAppend(a, b, f);
  }
}
