# Weekly salary calculator — verified model of its rules

The weekly salary calculator is a small Streamlit application. A payroll
clerk picks a worker and a week, marks each weekday present (`P`),
absent (`A`) or half day (`H`), and enters overtime hours, an overtime
rate, a bonus and a deduction. The application then computes the week's
pay. The week can also be typed as a free-text message. That message goes
to a language model, or, when none answers, to a fixed keyword parser.
The result is laid over the week being edited.

This project models, in Dafny, the three pieces of the program that hold
its rules:

- **Calc** (`calc.py`): `normalize_days` coerces any attendance map into
  the seven weekday keys. `calc_weekly_salary` counts present and half
  days, picks the overtime rate (the daily rate over 8 when none is
  given), computes base and overtime pay, and clamps the total at zero.
  Money is exact `real` arithmetic.
- **Llm**, **TextMatch**, **Schema**, **Retrieval** (`llm.py`):
  - `fallback_parse_attendance`: starting from all absent, two range rules
    run, then six overwrite checks per weekday, then four leftmost-match
    number searches. The loops are written as methods and proved equal to
    the specification function `Fallback`.
  - The regular expressions are not modelled by an engine. TextMatch
    states each fixed pattern shape directly: literals in order on one
    line, and literal words followed by whitespace and a decimal numeral.
  - `_ensure_schema`, the coercion of an untyped answer (a JSON `Value`).
  - The ranking half of `retrieve_policy_context`.
- **App** (`app.py`):
  - `monday_of_week` on proleptic Gregorian ordinals.
  - `default_days`.
  - The step that lays a parse result over the session's draft, as a
    class `Draft` whose method updates its fields.
- **ParserExamples** and **MessageFacts**: worked examples of the keyword
  parser. They cover the attendance box's placeholder text, both whole
  and in its five pieces, and the same message with its range written
  "Mon to Sat". They also cover an overtime rate and "ot" matched inside
  another word. MessageFacts holds what a literal message's
  characters are. ParserExamples derives each parse result from those
  facts and the general lemmas.

Helper modules: Wrappers (`Option`), Ascii (`lower`, `upper` and `strip`
on ASCII text), and Json (untyped values, with Python's truthiness,
`dict.get` and `float()`).

Where the behaviour is surprising, the model follows the code:

- Ranked lines with equal scores come out in descending order of line
  text, not in input order. The code sorts `(score, line)` pairs with
  `reverse=True` (`Retrieval.TieByTextExample`).
- The en dash in the placeholder text "Mon–Sat present" is neither "to"
  nor "-", so no range rule fires (`ParserExamples.DashRangeExample`).
- "ot" also matches inside a word: "slot 2" gives two overtime hours
  (`ParserExamples.InsideWordExample`).

## Model

| member | source | states |
|---|---|---|
| Ascii.Lower | llm.py:26 | `s.lower()` keeps the length and lower-cases each character |
| Ascii.Upper | calc.py:22 | `s.upper()` keeps the length and upper-cases each character |
| Ascii.StripLeft | calc.py:22 | the result is a suffix of the text; everything cut off is whitespace; the result does not start with whitespace |
| Ascii.StripRight | calc.py:22 | the result is a prefix of the text; everything cut off is whitespace; the result does not end with whitespace |
| Ascii.Strip | calc.py:22 | `s.strip()` neither starts nor ends with whitespace |
| Ascii.StripMeans | calc.py:22 | `s.strip()` is the text from some index on, cut short, with only whitespace before that index and after its end |
| Ascii.StripKeeps | calc.py:22 | text without surrounding whitespace is its own stripped form |
| Ascii.UpperKeeps | calc.py:22 | text without lower-case letters is its own upper-case form |
| Json.FloatOf | llm.py:65-67 | `float(v)` of a number is the number; of a string, the string parse; of `None`, a list or a dictionary, an error |
| Calc.StatusOfMeans | calc.py:22-23 | a mark other than A comes only from a string whose upper-cased, stripped text is that mark's letter; a string whose text is one of the three letters gives that mark |
| Calc.StatusOfCode | calc.py:22-23 | each mark's letter reads back as that mark |
| Calc.StatusOfPadded | calc.py:22-23 | `" p "` reads as P |
| Calc.StatusOfLowerCase | calc.py:22-23 | `"h"` reads as H |
| Calc.StatusOfOtherValues | calc.py:22-23 | `"present"` and the number 1 read as A |
| Calc.PresentText | calc.py:22 | `"present"` upper-cases and strips to `"PRESENT"` |
| Calc.DayKeysDistinct | calc.py:16 | the seven `DAY_KEYS` are distinct and name every weekday |
| Calc.NormalWeek | calc.py:18-24 | the normalized record has exactly the seven weekday keys |
| Calc.NormalWeekMeans | calc.py:19-23 | each weekday is A when the map is `None` or lacks its key, and otherwise holds the mark of the value under its key |
| Calc.NormalizeDays | calc.py:18-24 | the method's result is `NormalWeek(days)` |
| Calc.FillWeek | calc.py:20-23 | the loop over `DAY_KEYS` leaves each weekday holding its own mark and nothing else |
| Calc.NormalWeekOfNone | calc.py:19-23 | a `None` map normalizes to all absent |
| Calc.NormalWeekOfEncoded | calc.py:18-24 | a normalized record, stored as letters and normalized again, comes back unchanged |
| Calc.NormalWeekIdempotent | calc.py:18-24 | normalizing is idempotent |
| Calc.AllAbsent | llm.py:27 | `{k: "A" for k in DAY_KEYS}` has every weekday, each absent |
| Calc.CountIn | calc.py:37-38 | a count of marks over some keys is at most the number of keys |
| Calc.CountsPartition | calc.py:37-38 | the P, H and A counts together are the number of keys, so present plus half days is at most 7 |
| Calc.EffectiveOtRate | calc.py:44 | a supplied rate, zero included, is used verbatim; otherwise the rate times 8 is the daily rate (0 when the daily rate is 0) |
| Calc.BasePay | calc.py:46 | base pay is (present + half/2) × daily rate |
| Calc.ClampAtZero | calc.py:48 | `max(0.0, x)` is never negative and is x whenever x ≥ 0 |
| Calc.Breakdown | calc.py:37-59 | the record echoes the days, bonus and deduction; the counts sum to at most 7; base is `BasePay` of the counts; overtime is hours × effective rate; the total is the raw sum when it is ≥ 0 and 0 otherwise |
| Calc.CalcWeeklySalary | calc.py:26-59 | the result holds the normalized days, at most 7 counted days and a non-negative total; a missing bonus or deduction is 0 |
| Calc.CountsOfBreakdown | calc.py:37-38 | `presentDays` and `halfDays` are the counts of P and H marks |
| Calc.CountAllAbsent | calc.py:37-38 | a week of absences counts no present and no half day |
| Calc.AllAbsentPay | calc.py:37-48 | with no present or half day the base and the overtime are 0 and the total is `max(0, −deduction)` |
| Calc.AllAbsentWithDeduction | calc.py:34-48 | no attendance with a deduction of 500 gives a total of 0 |
| Calc.ExampleWeekNormalized | calc.py:18-24 | five P, one H and one A, as letters, normalize to the expected record |
| Calc.ExampleWeekCounts | calc.py:37-38 | that week counts 5 present days and 1 half day |
| Calc.SalaryWorkedExample | calc.py:34-59 | rate 700, 3 overtime hours, bonus 200: base 3850, rate 87.5, overtime 262.5, total 4312.5, days, bonus and deduction echoed |
| Calc.DefaultOtRateExample | calc.py:44 | a daily rate of 700 gives 87.5 an hour when no rate or a blank one is given, and a given 0 stays 0 |
| TextMatch.OccursAtMeans | llm.py:44-46 | a literal occurs at i exactly when the slice at i is that literal |
| TextMatch.ContainsMeans | llm.py:44-46 | `t in s` exactly when t occurs at some index |
| TextMatch.SearchMeans | llm.py:30-35 | `re.search("a1.*a2...", s)` succeeds exactly when an alternative of the first element starts somewhere and the rest follows |
| TextMatch.FollowsMeans | llm.py:44-46 | `t.*k` matches exactly when t occurs, and k occurs at or after its end, with no line break in between |
| TextMatch.FollowsAt | llm.py:44-46 | t at i and k at j, with no line break between, make `t.*k` match |
| TextMatch.SearchNeeds | llm.py:30-35 | a successful search has some alternative of every element in the text |
| TextMatch.NotFollowsAcross | llm.py:44-46 | `t.*k` cannot match across two texts when every t lies in the second and every k in the first |
| TextMatch.SpaceEnd | llm.py:48-54 | `\s*` consumes exactly the run of whitespace |
| TextMatch.DigitEnd | llm.py:48-54 | `[0-9]*` consumes exactly the run of digits |
| TextMatch.DecimalAt | llm.py:48-54 | `[0-9]+(\.[0-9]+)?` matches exactly where a digit stands, and reads a non-negative value |
| TextMatch.FractionAt | llm.py:48-54 | the optional fraction only adds to the value |
| TextMatch.NumberAfter | llm.py:48-54 | a number matched after the words is non-negative and ends inside the text |
| TextMatch.TryAlternatives | llm.py:49 | a match starts with one of the alternatives |
| TextMatch.FindNumber | llm.py:48-54 | the search returns the leftmost start position where the pattern matches, and no earlier position matches |
| TextMatch.ExtractNumber | llm.py:48-54 | the extracted value is non-negative, and there is none exactly when the pattern matches nowhere |
| TextMatch.ExtractNeedsEachWord | llm.py:48-54 | with no alternative of some word in the text, nothing is extracted |
| TextMatch.FindSkips | llm.py:48-54 | positions where the first word does not occur can be skipped |
| TextMatch.NumberAfterShift | llm.py:48-54 | a number pattern reads the same inside y as at the same place in x + y |
| TextMatch.NumberAfterExtend | llm.py:48-54 | appending text that starts with a character no pattern word, digit, `.` or whitespace uses does not change a match |
| TextMatch.FindNumberShift | llm.py:48-54 | the leftmost match in y from p is the leftmost match in x + y from |x| + p, moved by |x| |
| TextMatch.ExtractAfterPrefix | llm.py:48-54 | a prefix that holds no alternative of the first word, and whose last character is in none of them, does not change the extracted number |
| TextMatch.FindNumberExtend | llm.py:48-54 | when a match exists from p, appending text that starts with a character that is not whitespace, a digit, `.` or in any pattern word keeps the leftmost match |
| TextMatch.ExtractBeforeSuffix | llm.py:48-54 | once a number is found, appending such text keeps the number |
| Llm.TokenChecks | llm.py:44-46 | one token makes three checks, all on that token |
| Llm.ChecksForTokens | llm.py:42-46 | each token contributes three checks, each naming that token |
| Llm.FallbackDays | llm.py:27-46 | the parser's record has all seven weekdays |
| Llm.Fallback | llm.py:25-56 | the keyword parser always returns a record with all seven days, non-negative hours, bonus and deduction, and a non-negative rate when it finds one |
| Llm.ApplyTokenRules | llm.py:44-46 | one token's three checks set the day to the last firing check's mark and touch no other day |
| Llm.ApplyDayRules | llm.py:42-46 | a day's checks set that day to `LastMatch` of them and leave every other day as it was |
| Llm.MarkPresent | llm.py:31-35 | `for k in keys: days[k] = "P"` marks exactly those keys present |
| Llm.RangeRules | llm.py:27-35 | after the two range rules each day holds `RangeStatus` |
| Llm.DayRules | llm.py:42-46 | after every day's rules the record is `FallbackDays` |
| Llm.OverwriteStep | llm.py:42-46 | finishing the next weekday extends by one the prefix of finished days |
| Llm.FallbackParse | llm.py:25-56 | the whole method returns `Fallback(message)` |
| Llm.LastMatchConcat | llm.py:42-46 | checks a then b is b run from where a left off |
| Llm.TokenStep | llm.py:44-46 | within one token "present" beats "absent", which beats "half", which beats the earlier mark |
| Llm.DayChecks | llm.py:42-46 | a day's six checks are its key's three, then its full name's three |
| Llm.DayStatusMeans | llm.py:30-46 | the full name's checks decide first, then the key's, then the range rules |
| Llm.LastMatchIsLastFiring | llm.py:42-46 | the result is the mark of the last check that fires, or the starting mark when none fires |
| Llm.LastMatchNoneFires | llm.py:42-46 | when no check fires the mark is kept |
| Llm.FollowsNeeds | llm.py:44-46 | `t.*k` needs both t and k in the text |
| Llm.KeyStartsFullName | llm.py:38-41 | each key is the first three letters of the day's full name |
| Llm.NoTokenKeepsRange | llm.py:42-46 | a day whose key does not occur keeps the range rules' mark |
| Llm.NoKeywordKeepsRange | llm.py:44-46 | without "half", "absent" or "present" every day keeps the range mark |
| Llm.FullNamePresentWins | llm.py:42-46 | a full day name followed later on its line by "present" always gives P |
| Llm.RangeRulesEffect | llm.py:30-35 | a Sunday range marks all seven days present; a Saturday range alone marks Monday to Saturday and leaves Sunday absent; otherwise all stay absent |
| Llm.NoMondayNoRange | llm.py:30-35 | without "mon" neither range rule fires |
| Llm.NoConnectorNoRange | llm.py:30-35 | without "to" or "-" neither range rule fires |
| Llm.NoDayKeysAllAbsent | llm.py:27-46 | text without any day key marks every day absent |
| Llm.NoRecognisedWords | llm.py:25-56 | text with none of the recognised words parses to all absent, zeros and no rate |
| Llm.EmptyMessage | llm.py:25-56 | `""` parses to all absent, zeros and no rate |
| Schema.DaysIn | llm.py:59 | `obj.get("days") or {}` is `{}` for a missing or falsy value and the dictionary itself for a dictionary; a truthy non-dictionary fails at `.get` |
| Schema.SchemaOf | llm.py:58-82 | a coerced record comes only from a dictionary and has all seven weekdays |
| Schema.EnsureSchema | llm.py:58-82 | the method returns `SchemaOf(obj)` |
| Schema.SchemaDaysAsNormalized | llm.py:59-63 | the answer's `days` get the same treatment as `normalize_days` |
| Schema.FalsyDaysAllAbsent | llm.py:59-63 | a missing or falsy `days` gives all absent |
| Schema.EmptyDaysAllAbsent | llm.py:59-63 | an empty `days` dictionary gives all absent |
| Schema.SchemaFails | llm.py:58-63 | the coercion fails exactly on a non-dictionary answer or a truthy non-dictionary `days` |
| Schema.AmountCoercion | llm.py:65-81 | an amount is its number, its string's parse, or 0.0 when missing or unparsable |
| Schema.RateCoercion | llm.py:69-74 | the rate is absent when missing, `None`, `""`, `"null"`, a container or unparsable, and is the number otherwise |
| Schema.Answer | llm.py:76-82 | the untyped form of a record carries its days as letters |
| Schema.AnswerDays | llm.py:59 | an answer's `days` reads back as the stored letters |
| Schema.AnswerFields | llm.py:78-81 | an answer's amounts sit under their own keys |
| Schema.SchemaOfAnswer | llm.py:58-82 | coercing an answer already in shape gives the record back, whatever `float` does |
| Schema.SchemaIdempotent | llm.py:58-82 | coercion is idempotent |
| Schema.FallbackPassesSchema | llm.py:25-82 | the keyword parser's result passes the coercion unchanged |
| Retrieval.Pieces | llm.py:15 | `re.split(r"\W+", s)` yields at least one piece |
| Retrieval.PiecesMeans | llm.py:15 | each piece is made of word characters; laid end to end the pieces are the word characters of the text; there is one more piece than there are separators |
| Retrieval.PieceIsRun | llm.py:15 | every piece is a maximal run of word characters of the text, the first piece exactly when the run starts the text |
| Retrieval.RunIsPiece | llm.py:15 | every maximal run of word characters is a piece, the first exactly when it starts the text |
| Retrieval.PiecesAreRuns | llm.py:15 | the pieces are exactly the maximal runs of word characters |
| Retrieval.WordsOf | llm.py:15-19 | a line's word set holds only words longer than two characters |
| Retrieval.WordsMeans | llm.py:15-19 | a line's words are exactly its lower-cased maximal runs of word characters that are longer than two characters |
| Retrieval.WordsAreLowerWordRuns | llm.py:15-19 | every word is made of word characters and has no upper-case letter |
| Retrieval.Score | llm.py:20 | a score is at most the number of query words |
| Retrieval.ScoreMeans | llm.py:20 | a score is 0 exactly when no query word is in the line, and full exactly when all are |
| Retrieval.ScoreAll | llm.py:17-21 | one pair per line, in order, each with its line's score |
| Retrieval.LexLeTotal | llm.py:22 | string order is total |
| Retrieval.LexLeAntisymmetric | llm.py:22 | string order is antisymmetric |
| Retrieval.LexLeTransitive | llm.py:22 | string order is transitive |
| Retrieval.AheadTotal | llm.py:22 | the pair order is total |
| Retrieval.AheadAntisymmetric | llm.py:22 | the pair order is antisymmetric |
| Retrieval.AheadTransitive | llm.py:22 | the pair order is transitive |
| Retrieval.Insert | llm.py:22 | inserting into a reverse-sorted list keeps it sorted and adds exactly that pair |
| Retrieval.SortDesc | llm.py:22 | `sort(reverse=True)` gives a reverse-sorted permutation |
| Retrieval.SortedUnique | llm.py:22 | any two reverse-sorted permutations of the same pairs are equal, so the sorting algorithm does not matter |
| Retrieval.LinesOf | llm.py:23 | the lines of the pairs, in order |
| Retrieval.SplitJoin | llm.py:23 | lines without breaks, joined by `"\n"` and split again, come back |
| Retrieval.Ranking | llm.py:15-22 | the ranking has one pair per line |
| Retrieval.RetrievePolicyContext | llm.py:11-23 | the method returns `Context(query, policy, topN)` |
| Retrieval.ScoreLines | llm.py:17-21 | the scoring loop builds `ScoreAll` |
| Retrieval.RankingIsSortedPermutation | llm.py:17-22 | the ranking is sorted in reverse and is a permutation of the scored lines |
| Retrieval.KeptLinesWin | llm.py:22-23 | a kept line scores at least as high as any line left out, and wins ties by larger text |
| Retrieval.ContextLines | llm.py:23 | the context splits back into the first `top_n` ranked lines |
| Retrieval.ContextLineCount | llm.py:23 | `scored[:top_n]` keeps `min(top_n, len)` lines, counting a negative bound from the end; the context is `""` when none is kept, and otherwise splits into exactly that many lines, the first ranked ones |
| Retrieval.RankedLinesUnbroken | llm.py:17-22 | when no input line holds a line break, no ranked line does |
| Retrieval.EmptyContext | llm.py:11-23 | no policy file, or no lines, gives `""` |
| Retrieval.DefaultTopSix | llm.py:11-23 | with the default `top_n` at most six lines are kept |
| Retrieval.EmptyQueryWords | llm.py:15 | the empty query has no words |
| Retrieval.ScoresOfEmptyQuery | llm.py:20 | with no query words every line scores 0 |
| Retrieval.RankingIs | llm.py:22 | any reverse-sorted permutation of the scored lines is the ranking |
| Retrieval.TieByTextExample | llm.py:22-23 | lines with equal scores come out by descending text: "overtime" before "leave" |
| App.Weekday | app.py:15 | `date.weekday()` is `(ordinal − 1) mod 7`, Monday 0 |
| App.MondayOfWeek | app.py:14-15 | the result is a Monday, at most six days before the date and never after it |
| App.MondayOfWeekUnique | app.py:14-15 | the Monday among the seven days ending on a date is `monday_of_week` of that date |
| App.MondayOfWeekIdempotent | app.py:14-15 | a Monday maps to itself |
| App.MondayOfWeekExamples | app.py:14-15 | ordinal 1 and 2024-01-01 are Mondays; the Sunday after 2024-01-01 maps to it |
| App.DefaultDays | app.py:17-18 | `default_days()` has exactly the seven weekday keys, all absent |
| App.Overlay | app.py:109 | `{**old, **new}` has the union of the keys; the new entries win and the old ones fill the rest |
| App.OverlayOfWeek | app.py:109 | a complete record laid over any week replaces it |
| App.OverlayOfNothing | app.py:109 | an empty overlay keeps the week |
| App.Draft.constructor | app.py:80-89 | the first visit starts all absent with no overtime, rate, bonus or deduction |
| App.Draft.ApplyParsed | app.py:109-113 | parsed days are laid over the draft's; the amounts are replaced, 0.0 where missing; the rate is replaced, `None` where missing |
| App.ApplyParseResult | app.py:103-113 | after either parser's result the draft holds exactly that result |
| ParserExamples.KeyDecides | llm.py:42-46 | when a day's full name is absent, its key's checks decide over the range mark |
| ParserExamples.KeyPresent | llm.py:44-46 | a key followed by "present", with the full name absent, gives P |
| ParserExamples.KeyHalf | llm.py:44-46 | a key followed by "half", with no "present" or "absent" and no full name, gives H |
| ParserExamples.PresentByKeys | llm.py:42-46 | two keys followed by "present" are P and every day with no key keeps its range mark |
| ParserExamples.LeftmostNumber | llm.py:48-51 | the first occurrence of a one-word pattern followed by a numeral gives that numeral |
| ParserExamples.LeftmostPairNumber | llm.py:53-54 | the same for `ot\s*rate\s*<number>` |
| ParserExamples.OnlyOccurrenceNoNumber | llm.py:48 | a word whose only occurrence is not followed by a digit extracts nothing |
| ParserExamples.NoNumberWords | llm.py:48-54 | without "ot", "bonus" or a deduction word no number is extracted |
| ParserExamples.DashRangeExample | llm.py:25-56 | "Mon–Sat present" marks only Monday and Saturday present, with zeros and no rate |
| ParserExamples.WedHalfExample | llm.py:25-56 | "Wed half day" marks only Wednesday half, with zeros and no rate |
| ParserExamples.OtHoursExample | llm.py:48-56 | "OT 3 hours" gives 3 overtime hours and nothing else |
| ParserExamples.AdvanceExample | llm.py:49-56 | "advance 500" gives a deduction of 500 and nothing else |
| ParserExamples.BonusExample | llm.py:50-56 | "bonus 200" gives a bonus of 200 and nothing else |
| ParserExamples.ToRangeExample | llm.py:30-46 | "Mon to Sat present" marks Monday to Saturday present and Sunday absent |
| ParserExamples.OtRateExample | llm.py:48-54 | "ot rate 50" gives a rate of 50 and no overtime hours |
| ParserExamples.InsideWordExample | llm.py:48 | "slot 2" gives two overtime hours |
| ParserExamples.KeyHalfAlone | llm.py:44-46 | a key followed by "half" but not "present", with no "absent" and no full name, gives H |
| ParserExamples.DayMark | llm.py:27-46 | in a message where "mon" and "sat" are followed by "present", "wed" by "half" but not "present", and no other day name can occur, Monday and Saturday are P, Wednesday H, the others keep the range mark |
| ParserExamples.JoinedNumbers | llm.py:48-56 | a first item without any number word leaves the three amounts of the rest and finds no rate |
| ParserExamples.PlaceholderExample | llm.py:25-56 | the whole placeholder "Mon–Sat present, Wed half day, OT 3 hours, advance 500, bonus 200" gives Monday and Saturday present, Wednesday half, the rest absent, 3 overtime hours, no rate, bonus 200 and deduction 500 |
| ParserExamples.ToRangeMessageExample | llm.py:25-56 | "Mon to Sat present, Wed half day, OT 3 hours, advance 500, bonus 200" gives Monday, Tuesday, Thursday, Friday and Saturday present, Wednesday half, Sunday absent, and the same amounts |

## Left out

- Streamlit, the pages, widgets and `st.rerun`. The model starts where the
  script calls the helpers. The session state is modelled only in
  `App.Draft`, for the first-visit defaults and the overlay.
- The database module `db.py` is not part of this model. It is SQL text
  run through `sqlite3`.
- `llm_parse_attendance` (llm.py:84-115) is not modelled: an HTTP request
  to a local model server, with a timeout and JSON decoding. Its answer
  enters the model as the untyped `Value` that `Schema.EnsureSchema`
  coerces.
- Reading the policy file (llm.py:12-14). The ranking receives the
  already-stripped, non-empty lines, or `None` when the file is missing.
- `float()` of a string is the parameter `parseFloat`, left uninterpreted.
  Floating-point rounding, NaN and infinities are not modelled: money and
  hours are exact `real` numbers.
- `str.lower`, `str.upper`, `str.strip`, `\s`, `\w` and `\W` are modelled
  on ASCII only. Tamil and other non-ASCII text is out of scope.
- A date is its ordinal (`date.toordinal()`). The conversion to and from
  calendar dates is not modelled.
- `re.split(r"\W+", s)`: `Retrieval.Pieces` cuts at every non-word
  character, leaving empty pieces where the library collapses a run. The
  length filter drops those, so the word sets are the same.
- `list.sort(reverse=True)`: `Retrieval.SortDesc` is an insertion sort.
  `Retrieval.SortedUnique` shows that every algorithm producing a
  reverse-sorted permutation gives the same list.
- The script strips the message before either parser sees it (app.py:103, 106). `Llm.Fallback` takes the message as given. Every rule looks for text inside the message, so surrounding whitespace does not change the result, but no lemma states this.
- The `round()` of the display and the week history are not modelled.
