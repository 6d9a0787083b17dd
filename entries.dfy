/** Entry building: the base year of a file and the entries of its timestamped lines. */
module EntryBuilder {
  import opened Wrappers
  import opened Text
  import opened LogTypes
  import opened Runtime
  import opened LineClassifier
  import Seqs

  // ---------------------------------------------------------------------------
  // Base year

  /** Position `p` starts a line for a `^` anchor under the `m` flag. */
  predicate LineStart(c: string, p: nat) {
    p <= |c| && (p == 0 || IsLineTerminator(c[p - 1]))
  }

  /** The two year-bearing line openings, tried in this order: `DDDD-` or `DDDD/`, then `DDDDDDDD-`. */
  datatype YearPattern = YearThenSeparator | EightDigitsThenDash

  predicate PatternAt(c: string, p: nat, pat: YearPattern) {
    match pat
    case YearThenSeparator => p + 5 <= |c| && AllDigits(c[p..p + 4]) && (c[p + 4] == '-' || c[p + 4] == '/')
    case EightDigitsThenDash => p + 9 <= |c| && AllDigits(c[p..p + 8]) && c[p + 8] == '-'
  }

  /** A line of `c` starts at `p` with the pattern. */
  predicate OpensWith(c: string, p: nat, pat: YearPattern) {
    LineStart(c, p) && PatternAt(c, p, pat)
  }

  /** The leftmost position from `from` on where a line opens with the pattern (`c.match(re)` with `re` multiline). */
  function FirstOpening(c: string, from: nat, pat: YearPattern): (r: Option<nat>)
    requires from <= |c|
    ensures r.Some? ==> (from <= r.value <= |c| && OpensWith(c, r.value, pat)
      && forall q :: from <= q < r.value ==> !OpensWith(c, q, pat))
    ensures r.None? ==> forall q :: from <= q <= |c| ==> !OpensWith(c, q, pat)
    decreases |c| - from
  {
    if OpensWith(c, from, pat) then Some(from)
    else if from == |c| then None
    else FirstOpening(c, from + 1, pat)
  }

  /**
   * `inferBaseYear(content)`: the year of the first line opening with
   * `DDDD-` or `DDDD/`; failing that, the first four digits of the first line
   * opening with `DDDDDDDD-`; failing that, the current year.
   */
  function InferBaseYear(content: string, currentYear: int): int
  {
    match FirstOpening(content, 0, YearThenSeparator)
    case Some(p) => DigitsValue(content[p..p + 4])
    case None =>
      match FirstOpening(content, 0, EightDigitsThenDash)
      case Some(p) => DigitsValue(content[p..p + 4])
      case None => currentYear
  }

  /** `inferBaseYear` in terms of where lines open, for each of its three outcomes. */
  lemma InferBaseYearSpec(content: string, currentYear: int)
    ensures forall p :: (0 <= p <= |content| && OpensWith(content, p, YearThenSeparator)
      && (forall q :: 0 <= q < p ==> !OpensWith(content, q, YearThenSeparator))
      ==> InferBaseYear(content, currentYear) == DigitsValue(content[p..p + 4]))
    ensures (forall q :: 0 <= q <= |content| ==> !OpensWith(content, q, YearThenSeparator)) ==>
      forall p :: (0 <= p <= |content| && OpensWith(content, p, EightDigitsThenDash)
        && (forall q :: 0 <= q < p ==> !OpensWith(content, q, EightDigitsThenDash))
        ==> InferBaseYear(content, currentYear) == DigitsValue(content[p..p + 4]))
    ensures (forall q :: 0 <= q <= |content| ==> !OpensWith(content, q, YearThenSeparator) && !OpensWith(content, q, EightDigitsThenDash))
      ==> InferBaseYear(content, currentYear) == currentYear
  {
    var a := FirstOpening(content, 0, YearThenSeparator);
    var b := FirstOpening(content, 0, EightDigitsThenDash);
    forall p | 0 <= p <= |content| && OpensWith(content, p, YearThenSeparator)
      && (forall q :: 0 <= q < p ==> !OpensWith(content, q, YearThenSeparator))
      ensures InferBaseYear(content, currentYear) == DigitsValue(content[p..p + 4])
    {
      assert a == Some(p);
    }
    if a.None? {
      forall p | 0 <= p <= |content| && OpensWith(content, p, EightDigitsThenDash)
        && (forall q :: 0 <= q < p ==> !OpensWith(content, q, EightDigitsThenDash))
        ensures InferBaseYear(content, currentYear) == DigitsValue(content[p..p + 4])
      {
        assert b == Some(p);
      }
    }
  }

  // ---------------------------------------------------------------------------
  // Entries

  /** A line yields an entry when it is not blank and opens with a timestamp. */
  predicate Kept(line: string, baseYear: int, dates: DateLib) {
    !AllWhitespace(line) && Classify(line, baseYear, dates).Some?
  }

  function KeptTest(baseYear: int, dates: DateLib): string -> bool {
    line => Kept(line, baseYear, dates)
  }

  /** The positions of the kept lines, ascending. */
  function KeptIndices(lines: seq<string>, baseYear: int, dates: DateLib): seq<nat> {
    Seqs.IndicesWhere(lines, KeptTest(baseYear, dates))
  }

  /**
   * `e` is the entry built from line `raw` of `source`: its timestamp and
   * text are the line's first grammar match, its level is detected on the
   * line, its message is the trimmed rest after the timestamp text, and the
   * line itself is kept as `raw`.
   */
  predicate EntryOf(e: LogEntry, source: string, raw: string, baseYear: int, dates: DateLib) {
    && e.raw == raw
    && e.source == source
    && Classify(raw, baseYear, dates) == Some(TsInfo(e.ts, e.tsText))
    && StartsWith(raw, e.tsText)
    && e.level == DetectLevel(raw)
    && e.message == Trim(raw[|e.tsText|..])
  }

  function EntryTest(source: string, baseYear: int, dates: DateLib): (LogEntry, string) -> bool {
    (e, raw) => EntryOf(e, source, raw, baseYear, dates)
  }

  /** The body of `parseLog`'s loop for one line: the entry it yields, if any. */
  method ParseLine(source: string, raw: string, baseYear: int, dates: DateLib) returns (r: Option<LogEntry>)
    ensures r.None? <==> !Kept(raw, baseYear, dates)
    ensures r.Some? ==> EntryOf(r.value, source, raw, baseYear, dates)
  {
    if Trim(raw) == [] {
      return None;
    }
    var tsInfo := ExtractTimestamp(raw, baseYear, dates);
    if tsInfo.None? {
      return None;
    }
    var level := DetectLevel(raw);
    RemoveFirstPrefix(raw, tsInfo.value.tsText);
    var msg := Trim(RemoveFirst(raw, tsInfo.value.tsText));
    r := Some(LogEntry(tsInfo.value.ts, tsInfo.value.tsText, source, level, msg, raw));
  }

  /**
   * `parseLog({source, content})`: one entry per kept line of the content,
   * in line order, each built from its line as `EntryOf` says. The base year
   * is inferred once from the whole content.
   */
  method ParseLog(source: string, content: string, currentYear: int, dates: DateLib) returns (out: seq<LogEntry>)
    ensures var baseYear := InferBaseYear(content, currentYear);
      Seqs.Corresponds(out, SplitLines(content), KeptTest(baseYear, dates), EntryTest(source, baseYear, dates))
  {
    var baseYear := InferBaseYear(content, currentYear);
    var lines := SplitLines(content);
    ghost var keep, rel := KeptTest(baseYear, dates), EntryTest(source, baseYear, dates);
    out := [];
    for n := 0 to |lines|
      invariant Seqs.Corresponds(out, lines[..n], keep, rel)
    {
      var e := ParseLine(source, lines[n], baseYear, dates);
      if e.None? {
        Seqs.CorrespondsSkip(out, lines, n, keep, rel);
      } else {
        assert rel(e.value, lines[n]);
        Seqs.CorrespondsPush(out, e.value, lines, n, keep, rel);
        out := out + [e.value];
      }
    }
    assert lines[..|lines|] == lines;
  }

  /** What `ParseLog` promises, spelled out per entry. */
  lemma ParsedEntries(out: seq<LogEntry>, source: string, content: string, currentYear: int, dates: DateLib)
    requires var baseYear := InferBaseYear(content, currentYear);
      Seqs.Corresponds(out, SplitLines(content), KeptTest(baseYear, dates), EntryTest(source, baseYear, dates))
    ensures var lines, baseYear := SplitLines(content), InferBaseYear(content, currentYear);
      var ks := KeptIndices(lines, baseYear, dates);
      && |out| == |ks|
      && (forall i :: 0 <= i < |out| ==> EntryOf(out[i], source, lines[ks[i]], baseYear, dates))
      && (forall k :: 0 <= k < |lines| && Kept(lines[k], baseYear, dates) ==> k in ks)
  {
    var lines, baseYear := SplitLines(content), InferBaseYear(content, currentYear);
    var ks := KeptIndices(lines, baseYear, dates);
    forall i | 0 <= i < |out| ensures EntryOf(out[i], source, lines[ks[i]], baseYear, dates) {
      assert EntryTest(source, baseYear, dates)(out[i], lines[ks[i]]);
    }
    forall k | 0 <= k < |lines| && Kept(lines[k], baseYear, dates) ensures k in ks {
      assert KeptTest(baseYear, dates)(lines[k]);
    }
  }
}
