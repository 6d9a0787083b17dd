/**
 * Line classification: the five start-anchored timestamp grammars, the
 * first-match timestamp extraction, and the level detection.
 */
module LineClassifier {
  import opened Wrappers
  import opened Text
  import opened LogTypes
  import opened Runtime

  // ---------------------------------------------------------------------------
  // Timestamp grammars

  /** In a shape, this character stands for one ASCII digit; every other character stands for itself. */
  const DigitSlot: char := '#'

  /** `YYYYMMDD-HH:mm:ss.SSS` */
  const CompactShape: string := "########-##:##:##.###"
  /** `[MM/DD HH:mm:ss.SSS]` */
  const BracketShape: string := "[##/## ##:##:##.###]"
  /** `YYYY/MM/DD HH:mm:ss.SSS` */
  const SlashShape: string := "####/##/## ##:##:##.###"
  /** `YYYY-MM-DDTHH:mm:ss.SSSZ` */
  const IsoFractionShape: string := "####-##-##T##:##:##.###Z"
  /** `YYYY-MM-DDTHH:mm:ssZ` */
  const IsoShape: string := "####-##-##T##:##:##Z"
  /** `MM-DD HH:mm:ss.SSS` (Android logcat) */
  const LogcatShape: string := "##-## ##:##:##.###"

  predicate SlotMatches(slot: char, c: char) {
    if slot == DigitSlot then IsDigit(c) else c == slot
  }

  /** The line begins with an instance of the shape. */
  predicate ShapeAt(line: string, shape: string) {
    |shape| <= |line| && forall i :: 0 <= i < |shape| ==> SlotMatches(shape[i], line[i])
  }

  datatype Grammar = Compact | Bracket | Slash | Iso8601Z | Logcat

  /** The grammars in the order they are tried. */
  const Grammars: seq<Grammar> := [Compact, Bracket, Slash, Iso8601Z, Logcat]

  /**
   * The length of the grammar's match at the start of the line, if any. The
   * ISO grammar's fraction is optional: with `.SSS` it must be followed by
   * `Z`, without it `Z` must follow the seconds.
   */
  function MatchLength(g: Grammar, line: string): (n: Option<nat>)
    ensures n.Some? ==> 0 < n.value <= |line|
  {
    match g
    case Compact => if ShapeAt(line, CompactShape) then Some(|CompactShape|) else None
    case Bracket => if ShapeAt(line, BracketShape) then Some(|BracketShape|) else None
    case Slash => if ShapeAt(line, SlashShape) then Some(|SlashShape|) else None
    case Iso8601Z =>
      if ShapeAt(line, IsoFractionShape) then Some(|IsoFractionShape|)
      else if ShapeAt(line, IsoShape) then Some(|IsoShape|)
      else None
    case Logcat => if ShapeAt(line, LogcatShape) then Some(|LogcatShape|) else None
  }

  /** `Number()` of the digits `m[i..j]`. */
  function Field(m: string, i: nat, j: nat): nat
  {
    if i <= j <= |m| then DigitsValue(m[i..j]) else 0
  }

  /**
   * The epoch milliseconds of a matched timestamp text `m` (`toDate`): the
   * year-less grammars take `baseYear`, months are passed to the local `Date`
   * constructor counting from 0, and the ISO form is read as UTC with a
   * missing fraction meaning 0 milliseconds.
   */
  function ToEpoch(g: Grammar, m: string, baseYear: int, dates: DateLib): int
  {
    match g
    case Compact =>
      dates.localEpoch(Field(m, 0, 4), Field(m, 4, 6) - 1, Field(m, 6, 8),
                       Field(m, 9, 11), Field(m, 12, 14), Field(m, 15, 17), Field(m, 18, 21))
    case Bracket =>
      dates.localEpoch(baseYear, Field(m, 1, 3) - 1, Field(m, 4, 6),
                       Field(m, 7, 9), Field(m, 10, 12), Field(m, 13, 15), Field(m, 16, 19))
    case Slash =>
      dates.localEpoch(Field(m, 0, 4), Field(m, 5, 7) - 1, Field(m, 8, 10),
                       Field(m, 11, 13), Field(m, 14, 16), Field(m, 17, 19), Field(m, 20, 23))
    case Iso8601Z =>
      dates.utcEpoch(Field(m, 0, 4), Field(m, 5, 7), Field(m, 8, 10),
                     Field(m, 11, 13), Field(m, 14, 16), Field(m, 17, 19),
                     if |m| >= 24 then Field(m, 20, 23) else 0)
    case Logcat =>
      dates.localEpoch(baseYear, Field(m, 0, 2) - 1, Field(m, 3, 5),
                       Field(m, 6, 8), Field(m, 9, 11), Field(m, 12, 14), Field(m, 15, 18))
  }

  /** A recognised timestamp: its epoch value and the exact text it came from. */
  datatype TsInfo = TsInfo(ts: int, tsText: string)

  /** What grammar `g` yields on `line`, if it matches at the start. */
  function TryGrammar(g: Grammar, line: string, baseYear: int, dates: DateLib): Option<TsInfo>
  {
    match MatchLength(g, line)
    case None => None
    case Some(n) =>
      var m := line[..n];
      Some(TsInfo(ToEpoch(g, m, baseYear, dates), m))
  }

  /** The first present value in `s`. */
  function FirstSome<T>(s: seq<Option<T>>): (r: Option<T>)
    ensures r.None? <==> forall j :: 0 <= j < |s| ==> s[j].None?
    ensures r.Some? ==> exists j :: 0 <= j < |s| && s[j] == r && forall i :: 0 <= i < j ==> s[i].None?
  {
    if s == [] then None
    else if s[0].Some? then s[0]
    else
      var r := FirstSome(s[1..]);
      assert forall j :: 0 < j < |s| ==> s[j] == s[1..][j - 1];
      if r.Some? then
        ghost var j :| 0 <= j < |s[1..]| && s[1..][j] == r && forall i :: 0 <= i < j ==> s[1..][i].None?;
        assert s[j + 1] == r && forall i :: 0 <= i < j + 1 ==> s[i].None?;
        r
      else r
  }

  /** What each grammar yields on the line, in the order they are tried. */
  function Attempts(line: string, baseYear: int, dates: DateLib): (a: seq<Option<TsInfo>>)
    ensures |a| == |Grammars|
  {
    seq(|Grammars|, j requires 0 <= j < |Grammars| => TryGrammar(Grammars[j], line, baseYear, dates))
  }

  /** What `extractTimestamp` returns: the first grammar, in list order, that matches. */
  function Classify(line: string, baseYear: int, dates: DateLib): Option<TsInfo>
  {
    FirstSome(Attempts(line, baseYear, dates))
  }

  /** A grammar yields a timestamp exactly when it matches, and then its text is the matched prefix. */
  lemma TryGrammarFacts(g: Grammar, line: string, baseYear: int, dates: DateLib)
    ensures TryGrammar(g, line, baseYear, dates).None? <==> MatchLength(g, line).None?
    ensures MatchLength(g, line).Some? ==>
      var n := MatchLength(g, line).value;
      TryGrammar(g, line, baseYear, dates) == Some(TsInfo(ToEpoch(g, line[..n], baseYear, dates), line[..n]))
  {
  }

  /** `extractTimestamp` returns nothing exactly when no grammar matches at the start of the line. */
  lemma ClassifyNone(line: string, baseYear: int, dates: DateLib)
    ensures Classify(line, baseYear, dates).None? <==>
      forall j :: 0 <= j < |Grammars| ==> MatchLength(Grammars[j], line).None?
  {
    var a := Attempts(line, baseYear, dates);
    forall j | 0 <= j < |Grammars| ensures a[j].None? <==> MatchLength(Grammars[j], line).None? {
      TryGrammarFacts(Grammars[j], line, baseYear, dates);
    }
  }

  /**
   * Otherwise the first grammar that matches decides: `tsText` is its match,
   * a prefix of the line, and `ts` is what the grammar makes of it.
   */
  lemma ClassifyFirstMatch(line: string, baseYear: int, dates: DateLib)
    requires Classify(line, baseYear, dates).Some?
    ensures exists j :: (0 <= j < |Grammars| && MatchLength(Grammars[j], line).Some?
        && (forall i :: 0 <= i < j ==> MatchLength(Grammars[i], line).None?)
        && var n := MatchLength(Grammars[j], line).value;
           Classify(line, baseYear, dates) == Some(TsInfo(ToEpoch(Grammars[j], line[..n], baseYear, dates), line[..n])))
    ensures StartsWith(line, Classify(line, baseYear, dates).value.tsText)
  {
    var a := Attempts(line, baseYear, dates);
    var j :| 0 <= j < |a| && a[j] == Classify(line, baseYear, dates) && forall i :: 0 <= i < j ==> a[i].None?;
    forall i | 0 <= i < j ensures MatchLength(Grammars[i], line).None? {
      assert a[i] == TryGrammar(Grammars[i], line, baseYear, dates);
      TryGrammarFacts(Grammars[i], line, baseYear, dates);
    }
    TryGrammarFacts(Grammars[j], line, baseYear, dates);
    var n := MatchLength(Grammars[j], line).value;
    assert line[..n] == line[..|line[..n]|];
  }

  /** `extractTimestamp(line, baseYear)`: tries the grammars in order and returns on the first match. */
  method ExtractTimestamp(line: string, baseYear: int, dates: DateLib) returns (r: Option<TsInfo>)
    ensures r == Classify(line, baseYear, dates)
    ensures r.Some? ==> StartsWith(line, r.value.tsText) && r.value.tsText != []
  {
    ghost var a := Attempts(line, baseYear, dates);
    for k := 0 to |Grammars|
      invariant forall j :: 0 <= j < k ==> a[j].None?
    {
      var g := Grammars[k];
      match MatchLength(g, line) {
        case Some(n) =>
          var m := line[..n];
          r := Some(TsInfo(ToEpoch(g, m, baseYear, dates), m));
          assert a[k] == r;
          FirstSomeAt(a, k);
          return;
        case None =>
          assert a[k].None?;
      }
    }
    r := None;
  }

  /** When every value before `k` is absent and the one at `k` is present, `FirstSome` picks it. */
  lemma FirstSomeAt<T>(s: seq<Option<T>>, k: nat)
    requires k < |s| && s[k].Some? && forall j :: 0 <= j < k ==> s[j].None?
    ensures FirstSome(s) == s[k]
  {
    var r := FirstSome(s);
    if r.Some? {
      var j :| 0 <= j < |s| && s[j] == r && forall i :: 0 <= i < j ==> s[i].None?;
      assert j == k;
    }
  }

  // ---------------------------------------------------------------------------
  // Level detection

  /** `detectLevel(line)`: the first test that succeeds on the upper-cased line. */
  function DetectLevel(line: string): Level
  {
    var s := ToUpper(line);
    if Contains(s, " FATAL") || StartsWith(s, "FATAL") then Fatal
    else if Contains(s, " ERROR") || StartsWith(s, "E ") || Contains(s, "\tE\t") then Error
    else if Contains(s, " WARN") || StartsWith(s, "W ") || Contains(s, "\tW\t") then Warn
    else if Contains(s, " INFO") || StartsWith(s, "I ") || Contains(s, "\tI\t") then Info
    else if Contains(s, " DEBUG") || StartsWith(s, "D ") || Contains(s, "\tD\t") then Debug
    else Unknown
  }

  /** Levels ranked by the priority of their tests; `Unknown` is below all. */
  function Rank(l: Level): nat {
    match l
    case Fatal => 5
    case Error => 4
    case Warn => 3
    case Info => 2
    case Debug => 1
    case Unknown => 0
  }

  /** The markers that announce a level: words preceded by a space, and a leading letter or the whole word. */
  datatype Markers = Markers(spaced: string, leading: string, tabbed: Option<string>)

  function MarkersOf(l: Level): Option<Markers> {
    match l
    case Fatal => Some(Markers(" FATAL", "FATAL", None))
    case Error => Some(Markers(" ERROR", "E ", Some("\tE\t")))
    case Warn => Some(Markers(" WARN", "W ", Some("\tW\t")))
    case Info => Some(Markers(" INFO", "I ", Some("\tI\t")))
    case Debug => Some(Markers(" DEBUG", "D ", Some("\tD\t")))
    case Unknown => None
  }

  /** The line, read without regard to ASCII case, carries a marker of level `l`. */
  predicate Announces(line: string, l: Level) {
    var s := ToUpper(line);
    match MarkersOf(l)
    case None => false
    case Some(mk) =>
      Contains(s, mk.spaced) || StartsWith(s, mk.leading) || (mk.tabbed.Some? && Contains(s, mk.tabbed.value))
  }

  /**
   * The detected level is the highest-ranked level the line announces, and
   * `Unknown` exactly when it announces none.
   */
  lemma DetectLevelIsHighest(line: string)
    ensures DetectLevel(line) == Unknown <==> forall l :: !Announces(line, l)
    ensures DetectLevel(line) != Unknown ==> Announces(line, DetectLevel(line))
    ensures forall l :: Announces(line, l) ==> Rank(l) <= Rank(DetectLevel(line))
  {
    forall l ensures Announces(line, l) ==> Rank(l) <= Rank(DetectLevel(line)) {
      match l
      case Fatal =>
      case Error =>
      case Warn =>
      case Info =>
      case Debug =>
      case Unknown =>
    }
    if DetectLevel(line) == Unknown {
      forall l ensures !Announces(line, l) {
        match l
        case Fatal =>
        case Error =>
        case Warn =>
        case Info =>
        case Debug =>
        case Unknown =>
      }
    } else {
      assert Announces(line, DetectLevel(line));
    }
  }

  /**
   * A lower-case marker counts as well: a line containing " error" is at
   * least ERROR, whatever else it contains (" info", " warn", ...).
   */
  lemma SpacedWordCaseInsensitive(line: string, word: string, l: Level)
    requires MarkersOf(l).Some? && word != [] && ToUpper(word) == MarkersOf(l).value.spaced
    requires Contains(line, word)
    ensures Announces(line, l) && Rank(l) <= Rank(DetectLevel(line))
  {
    ContainsUpper(line, word);
    DetectLevelIsHighest(line);
  }

  /** The example: " info" and " error" in one line give ERROR when no FATAL marker is present. */
  lemma ErrorOverInfo(line: string)
    requires Contains(line, " info") && Contains(line, " error")
    requires !Announces(line, Fatal)
    ensures DetectLevel(line) == Error
  {
    SpacedWordCaseInsensitive(line, " error", Error);
    DetectLevelIsHighest(line);
  }
}
