# Epic Log Viewer analysis core in Dafny

Epic Log Viewer reads plain-text log files in the browser and turns them into
an analysis of timestamped entries, statistics, alerts and clusters of
related alerts. This project models the analysis pipeline of
`src/infrastructure/parser.ts` and the default rule table of
`src/domain/settings.ts`, and proves what each stage guarantees.

- **Line classification** (`LineClassifier`).
  - Each of the five start-anchored timestamp grammars is a literal digit and punctuation shape:
    - compact `YYYYMMDD-HH:mm:ss.SSS`;
    - bracketed `[MM/DD HH:mm:ss.SSS]`;
    - slashed `YYYY/MM/DD HH:mm:ss.SSS`;
    - ISO 8601 with the `Z` designator and an optional three-digit fraction;
    - Android logcat `MM-DD HH:mm:ss.SSS`.
  - `ExtractTimestamp` tries them in list order and keeps the first match.
  - `DetectLevel` tests level markers on the upper-cased line in the order FATAL, ERROR, WARN, INFO, DEBUG.
- **Entry building** (`EntryBuilder`).
  - `InferBaseYear` takes the year from the first line opening with `DDDD-` or `DDDD/`. Failing that, it takes the year from the first line opening with `DDDDDDDD-`. Failing both, it uses the current year.
  - `ParseLog` turns every non-blank line that opens with a timestamp into one entry, in line order.
- **Statistics** (`Statistics`). `AnalyzeCore` produces three things:
  - a stable sort of the entries by time;
  - a count per level;
  - a sparse per-minute histogram ordered by minute.
- **Rule compilation** (`RuleCompiler`).
  - Inline `(?i)` groups are removed in one left-to-right pass.
  - The flags and the `ci` option are concatenated, and each repeated flag keeps only its last occurrence.
  - A pattern that does not compile drops its rule.
- **Scoring** (`Scoring`).
  - An entry's reasons are its level (WARN, ERROR or FATAL) followed by every enabled compiled rule that matches the raw line, in rule order.
  - The score is the sum of their weights. The severity is their maximum.
  - The first reason is the primary one.
- **Clustering** (`Clustering`).
  - Alerts are grouped by key: the primary reason, or `source::primary`.
  - Each group is sorted by time and cut wherever the gap between neighbours exceeds the window.
  - All clusters are then ordered by start time.
- **Whole run** (`Analysis`). `AnalyzeWithSettings` applies three steps in order:
  - the per-source minute offsets;
  - the statistics;
  - scoring and clustering.
- **Settings** (`Settings`). `MakeDefaultSettings` fills the rule record from the thirteen-row default table, in table order. It uses a ten-second window, grouping by reason and no offsets.

Three foreign pieces are parameters of the model:
- `Runtime.DateLib` supplies the epoch of a local or UTC calendar time.
- `Runtime.RegexEngine` supplies "compiles" and "test" for a source and flags.
- The current year is passed to `InferBaseYear`.

JavaScript records and `Map`s that keep insertion order are sequences of slots. A new key is appended, and an existing key is updated where it stands. The stable `Array.prototype.sort` is `Seqs.SortBy`, an insertion sort, which is characterised by three properties:
- it is sorted;
- it is a permutation of its input;
- it keeps each key's elements in their input order.

Under the default rules the line `20240115-09:30:00.123 ERROR socket timeout connecting to host` matches `Timeout` and also `Failure Keyword`, whose pattern contains `error` and is case-insensitive. Its reasons are therefore `Level:ERROR`, `Timeout` and `Failure Keyword`, with score 7 + 5 + 5 = 17 and severity 4: see `DefaultsExample.TimeoutLineScores17`.

## Model

| member | source | states |
|---|---|---|
| Text.ToUpperMeaning | src/infrastructure/parser.ts:36 | the upper-cased line keeps its length, holds no lower-case ASCII letter, differs from the line exactly at its `a`–`z` letters, and turns each into the same letter in upper case |
| Text.ToUpperIdempotent | src/infrastructure/parser.ts:36 | upper-casing twice is the same as upper-casing once |
| Text.ContainsUpper | src/infrastructure/parser.ts:36-41 | a substring of a line stays a substring after both are upper-cased |
| Text.Trim | src/infrastructure/parser.ts:69-73 | the result is the infix left after removing the leading and trailing white space, starts and ends with a non-space, and is empty exactly when the line is all white space |
| Text.SplitLines | src/infrastructure/parser.ts:66 | splitting on `\r?\n` gives one more line than there are newlines, none containing a newline |
| Text.JoinSplitLines | src/infrastructure/parser.ts:66 | joining the lines with `\n` restores the content with every `\r\n` normalised to `\n` |
| Text.RemoveFirstPrefix | src/infrastructure/parser.ts:73 | replacing the first occurrence of a prefix removes exactly that prefix |
| LineClassifier.MatchLength | src/infrastructure/parser.ts:4-33 | a grammar's match is a non-empty prefix of the line |
| LineClassifier.FirstSome | src/infrastructure/parser.ts:52-58 | the first present attempt is chosen, and nothing is chosen exactly when every attempt is absent |
| LineClassifier.ClassifyNone | src/infrastructure/parser.ts:51-60 | there is no timestamp exactly when no grammar matches at the start of the line |
| LineClassifier.ClassifyFirstMatch | src/infrastructure/parser.ts:51-60 | the result comes from the first grammar in list order that matches, and its text is a prefix of the line |
| LineClassifier.ExtractTimestamp | src/infrastructure/parser.ts:51-60 | the loop with early return yields the first-match classification, whose text is a non-empty prefix of the line |
| LineClassifier.DetectLevelIsHighest | src/infrastructure/parser.ts:35-43 | the level is the highest-priority level the line announces, and UNKNOWN exactly when it announces none |
| LineClassifier.SpacedWordCaseInsensitive | src/infrastructure/parser.ts:36-41 | a space-led level word in any ASCII case makes the level at least that one |
| LineClassifier.ErrorOverInfo | src/infrastructure/parser.ts:37-40 | a line with both ` info` and ` error` and no FATAL marker is ERROR |
| EntryBuilder.FirstOpening | src/infrastructure/parser.ts:46 | the first position at or after `from` where a line opens with the year pattern, or none exists |
| EntryBuilder.InferBaseYearSpec | src/infrastructure/parser.ts:45-49 | the year is that of the first `DDDD-`/`DDDD/` line; only when there is none, that of the first `DDDDDDDD-` line; otherwise the current year |
| EntryBuilder.ParseLine | src/infrastructure/parser.ts:69-74 | a line yields nothing exactly when it is blank or has no timestamp, and otherwise yields the entry built from it |
| EntryBuilder.ParseLog | src/infrastructure/parser.ts:64-77 | the output corresponds one to one, in order, with the kept lines of the split content, each entry built from its line |
| EntryBuilder.ParsedEntries | src/infrastructure/parser.ts:64-77 | one entry per kept line, none for any other line, each with the given source, the line as raw, the first match's time and text, the detected level and the trimmed rest as message |
| Statistics.Minute | src/infrastructure/parser.ts:85 | the minute key is a multiple of 60000 and the start of the minute holding the time |
| Statistics.MinuteMonotone | src/infrastructure/parser.ts:85 | later times never fall in earlier minutes |
| Statistics.LevelCountsSum | src/infrastructure/parser.ts:81-82 | the six level counts add up to the number of entries |
| Statistics.CountLevels | src/infrastructure/parser.ts:81-82 | every level has a counter equal to the number of entries of that level |
| Statistics.BarOf | src/infrastructure/parser.ts:86 | the lookup finds the first bar of the minute, or there is none |
| Statistics.BumpShape | src/infrastructure/parser.ts:86 | a known minute's bar stays in place and a new minute is appended with count 1 |
| Statistics.BumpSum | src/infrastructure/parser.ts:86 | one bump adds exactly one to the total count |
| Statistics.BumpDistinct | src/infrastructure/parser.ts:86 | bumping keeps minutes distinct |
| Statistics.BumpCovers | src/infrastructure/parser.ts:84-87 | after a bump every entry seen so far has its minute's bar |
| Statistics.BumpCounts | src/infrastructure/parser.ts:84-87 | after a bump every bar counts the entries of its minute |
| Statistics.HistogramFacts | src/infrastructure/parser.ts:83-87 | the bucket map has distinct minutes, positive exact counts, a bar for every entry and counts summing to the entry count |
| Statistics.HistogramOrdered | src/infrastructure/parser.ts:83-88 | over time-sorted entries the bars already come in increasing minute order |
| Statistics.HistogramPermutation | src/infrastructure/parser.ts:80-88 | a histogram of the sorted entries is a histogram of the original entries |
| Statistics.BucketMinutes | src/infrastructure/parser.ts:83-87 | the bucket loop builds a histogram of the entries whose counts sum to the entry count |
| Statistics.AnalyzeCore | src/infrastructure/parser.ts:79-90 | sorted is a stable ascending permutation, the level counts are exact and the per-minute bars are strictly increasing minute multiples with positive exact counts summing to the entry count |
| Seqs.SortByFacts | src/infrastructure/parser.ts:80 | the stable sort is sorted, a permutation, and keeps the input order among equal keys |
| Seqs.SortByCharacterization | src/infrastructure/parser.ts:80 | any sorted sequence keeping every key's elements in input order is the stable sort |
| Seqs.SortBySorted | src/infrastructure/parser.ts:88 | sorting an already sorted sequence changes nothing |
| RuleCompiler.LetterRun | src/infrastructure/parser.ts:93 | the run of ASCII letters after `(?` ends at the text's end or at a non-letter |
| RuleCompiler.LetterRunLetters | src/infrastructure/parser.ts:93 | every character of the run is an ASCII letter |
| RuleCompiler.GroupLengthSpec | src/infrastructure/parser.ts:93 | a non-zero length is that of the inline group `(?`, one or more ASCII letters, `)` at the start, and no other length is; 0 means the text starts with no such group |
| RuleCompiler.StripWithoutCiGroup | src/infrastructure/parser.ts:93 | a pattern without `(?i)` groups is left unchanged |
| RuleCompiler.StripLeadingCi | src/infrastructure/parser.ts:93 | a leading `(?i)` or `(?I)` is removed and the rest processed alone |
| RuleCompiler.StripSinglePass | src/infrastructure/parser.ts:93 | the replacement is a single pass: `(?(?i)i)` becomes `(?i)`, not empty |
| RuleCompiler.LastOccurrences | src/infrastructure/parser.ts:95 | the positions whose character does not reappear later on its line, each once and ascending |
| RuleCompiler.DedupFlagsLastOccurrences | src/infrastructure/parser.ts:95 | the deduplicated flags are exactly the characters at those positions, in their original order |
| RuleCompiler.DedupFlagsChars | src/infrastructure/parser.ts:95 | deduplication keeps exactly the set of flag characters |
| RuleCompiler.DedupFlagsDistinct | src/infrastructure/parser.ts:95 | without line terminators the flags come out with no character repeated |
| RuleCompiler.CiAddsIgnoreCase | src/infrastructure/parser.ts:94 | `ci` always puts `i` among the effective flags |
| RuleCompiler.CompiledFlags | src/infrastructure/parser.ts:92-98 | a compiled expression is one the engine accepts, passes a pattern without `(?i)` on unchanged, has exactly the rule's flag characters plus `i` when `ci` is set, and repeats no flag |
| RuleCompiler.CompileRulesSound | src/infrastructure/parser.ts:109 | every compiled rule is one of the rules, with its own compiled expression |
| RuleCompiler.CompileRulesComplete | src/infrastructure/parser.ts:109 | every rule that compiles is among the compiled rules |
| RuleCompiler.CompileRulesSkipsRejected | src/infrastructure/parser.ts:109 | a rule that fails to compile is dropped without affecting the others |
| Scoring.LevelContribution | src/infrastructure/parser.ts:115-119 | only WARN, ERROR and FATAL contribute, with reason `Level:` and the level name |
| Scoring.ReasonsConcat | src/infrastructure/parser.ts:116-123 | the reasons of the level part followed by the rule part are the level reasons followed by the rule reasons |
| Scoring.TotalWeightAppend | src/infrastructure/parser.ts:113-124 | the score of two runs of contributions is the sum of their scores |
| Scoring.MaxSeverityBounds | src/infrastructure/parser.ts:114-125 | the severity is at least 0 and every contribution's severity, and is 0 or one of them |
| Scoring.RuleHitsMembers | src/infrastructure/parser.ts:120-127 | the rule contributions are exactly those of the enabled rules that match |
| Scoring.AlertExistsIff | src/infrastructure/parser.ts:115-130 | an alert exists exactly when the level is WARN, ERROR or FATAL or some enabled compiled rule matches |
| Scoring.AlertShape | src/infrastructure/parser.ts:128-129 | the alert wraps the entry, puts the level reason first, makes the first reason primary, and its score is the level's plus the sum of the matched weights |
| Scoring.AlertSeverityIsMax | src/infrastructure/parser.ts:114-125 | the severity is the maximum over the level and every matched rule, and 0 or one of them |
| Scoring.SilentRuleNoHits | src/infrastructure/parser.ts:120-127 | a rule that does not fire adds no contribution wherever it stands |
| Scoring.SilentRuleIgnored | src/infrastructure/parser.ts:120-127 | a disabled or non-matching rule leaves the alert as if it were absent |
| Scoring.ScoreStep | src/infrastructure/parser.ts:120-127 | one pass of the rule loop keeps the running reasons, score and severity equal to those of the rules seen so far |
| Scoring.ScoreEntry | src/infrastructure/parser.ts:111-131 | the loop body yields exactly the alert the contributions define |
| Scoring.ScoreEntries | src/infrastructure/parser.ts:110-131 | one alert per flagged entry, in entry order, and none for any other |
| Scoring.AlertsInEntryOrder | src/infrastructure/parser.ts:110-131 | alerts built from time-sorted entries are time-sorted and each is its entry's alert |
| Clustering.KeysSeparatePrimaries | src/infrastructure/parser.ts:135-137 | for alerts with a primary, `reason` keys are equal exactly when the primaries are, and so are `source_reason` keys within one source |
| Clustering.SourceReasonKeysCollide | src/infrastructure/parser.ts:135-136 | two alerts with different sources and primaries can share a `source_reason` key |
| Clustering.GroupIndex | src/infrastructure/parser.ts:142 | the lookup finds a group of that key, or none has it |
| Clustering.AddToGroupFacts | src/infrastructure/parser.ts:140-144 | adding an alert keeps one group per key holding exactly that key's alerts in order |
| Clustering.AddToGroupPartition | src/infrastructure/parser.ts:140-144 | adding an alert adds exactly it to the grouped members |
| Clustering.GroupAlerts | src/infrastructure/parser.ts:139-144 | the groups have distinct keys, each holds exactly its key's alerts in order, and together they are a permutation of the alerts |
| Clustering.ScanJoin | src/infrastructure/parser.ts:150-151 | an alert within the window extends the open cluster and keeps the scan state |
| Clustering.ScanCut | src/infrastructure/parser.ts:152-153 | an alert beyond the window closes the open cluster and opens a new one, keeping the scan state |
| Clustering.WindowMerge | src/infrastructure/parser.ts:147-156 | the clusters cut the list in order into well-formed windows with gaps of at most the window inside and above it between, and over a time-sorted list any later cluster starts more than the window after an earlier one ends |
| Clustering.BuildStep | src/infrastructure/parser.ts:145-157 | merging one more group keeps every cluster well formed, clusters of one key apart, and the members a permutation of the groups seen |
| Clustering.SortedClusters | src/infrastructure/parser.ts:158 | ordering the clusters by start keeps each cluster and the members |
| Clustering.BuildClusters | src/infrastructure/parser.ts:133-158 | the clusters are sorted by start, partition the alerts, each shares a key, ascends in time with gaps of at most the window and has its first and last time and size right, and clusters of one key are more than the window apart |
| Analysis.Shift | src/infrastructure/parser.ts:101-104 | only the time changes, by the source's offset times 60000 |
| Analysis.ShiftAll | src/infrastructure/parser.ts:101-104 | a new sequence of the same length whose entry at each position differs from the input's only in its time, moved by the source's offset times 60000 |
| Analysis.ShiftUnchanged | src/infrastructure/parser.ts:102-103 | an entry is returned unchanged exactly when its source has no offset or a zero one |
| Analysis.ShiftInverse | src/infrastructure/parser.ts:101-104 | shifting by the negated offsets restores the entry |
| Analysis.ShiftAllNoOffsets | src/infrastructure/parser.ts:101-104 | with no offsets the entries are unchanged |
| Analysis.PrimaryAlwaysSet | src/infrastructure/parser.ts:128-137 | every alert has a primary reason, so the key never falls back to `unknown` |
| Analysis.AnalyzeWithSettings | src/infrastructure/parser.ts:100-160 | entries, statistics, alerts and clusters meet all the stage guarantees above, over the offset-adjusted entries and the rules that compile |
| Settings.PutRule | src/domain/settings.ts:44 | assigning a property grows the record by at most one slot |
| Settings.PutRuleShape | src/domain/settings.ts:44 | an existing key keeps its place and a new key is appended |
| Settings.PutRuleValues | src/domain/settings.ts:44 | only the assigned key's value changes |
| Settings.PutRuleKeySet | src/domain/settings.ts:44 | the keys after assignment are the old keys and the assigned one |
| Settings.PutRuleUnique | src/domain/settings.ts:44 | assignment keeps keys unique |
| Settings.RuleValuesPut | src/domain/settings.ts:44 | after an assignment the rule values list a new key's rule last after the old values, or replace an existing key's value where it stands |
| Settings.DefaultIdsDistinct | src/domain/settings.ts:25-39 | the default table's ids are distinct |
| Settings.PutDefaults | src/domain/settings.ts:42-45 | the loop leaves one slot per table row, in table order, keyed by the row's id with the row's fields |
| Settings.MakeDefaultSettings | src/domain/settings.ts:41-51 | thirteen unique rules keyed by id, enabled, weight 5, severity 3, with name, pattern, flags and ci copied; window 10 seconds, grouping by reason, no offsets |
| DefaultsExample.TimeoutAndFailureRows | src/domain/settings.ts:29-37 | the fourth and twelfth default rows are Timeout and Failure Keyword |
| DefaultsExample.TimeoutLineIsError | src/infrastructure/parser.ts:35-43 | the example line is detected as ERROR |
| DefaultsExample.TableCompiles | src/infrastructure/parser.ts:108-109 | when every expression compiles, the default rules compile completely and in table order |
| DefaultsExample.TwoHits | src/infrastructure/parser.ts:120-127 | when only two table rules match, exactly their contributions appear, in table order |
| DefaultsExample.ErrorWithTwoRules | src/infrastructure/parser.ts:115-130 | an ERROR entry with two weight-5 severity-3 hits scores 17 with severity 4 and primary `Level:ERROR` |
| DefaultsExample.TimeoutLineScores17 | src/infrastructure/parser.ts:108-131 | under the default rules, when only Timeout and Failure Keyword match, the example line gets reasons `Level:ERROR`, Timeout, Failure Keyword, score 17 and severity 4 |

## Left out

- The regular expression engine is a parameter: which patterns compile and what they match (`new RegExp`, `.test`) are not modelled. Matching is taken to be stateless, so the `lastIndex` carried between `.test` calls by a rule with the `g` or `y` flag is not modelled.
- `Date` is a parameter: the local time zone, daylight saving, normalisation of out-of-range fields and the `Invalid Date`/NaN an impossible ISO date yields are not modelled; times are unbounded integers rather than doubles.
- The clock read of `inferBaseYear` is replaced by the current-year parameter.
- Text.ToUpper: upper-cases ASCII letters only, not the full Unicode mapping of `toUpperCase` (characters such as `ß` or `ı`).
- Settings.RuleValues: follows slot insertion order, while `Object.values` lists integer-like keys first in ascending order; the default ids are not integer-like.
- Analysis.Shift: looks offsets up in a map, so inherited object properties such as `constructor` are not offsets.
- Clustering.BuildClusters: states sortedness by start, the partition and each cluster's shape, but not the order the stable sort keeps among clusters with equal start times.
- Analysis.AnalyzeWithSettings: inherits the weaker cluster order above.
- Rule weights and severities, the cluster window and the per-source offsets are integers, while the code takes any JavaScript number; a fractional offset, which gives a fractional time, is not modelled.
- `src/infrastructure/worker.ts` is not part of this model: it passes messages, concatenates `parseLog` over files and calls `analyzeWithSettings`.
- The user interface, its hooks (local storage, debouncing) and styling configuration are not part of this model.
