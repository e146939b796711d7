/**
 * The deterministic keyword parser `fallback_parse_attendance`, used when no
 * language model answers: two range rules, six overwrite checks per weekday,
 * and four leftmost number searches, all on the lower-cased message.
 */
module Llm {
  import opened Wrappers
  import opened Ascii
  import opened Calc
  import opened TextMatch

  /** A parse result: the seven marks and the four numbers. */
  datatype Parsed = Parsed(days: Week, otHours: real, otRate: Option<real>, bonus: real, deduction: real)

  /* ---------------- Rules of the keyword parser ---------------- */

  /** `(mon|monday).*(to|-).*(sat|saturday).*(present|p)` */
  const RANGE_TO_SAT: seq<seq<string>> := [["mon", "monday"], ["to", "-"], ["sat", "saturday"], ["present", "p"]]

  /** `(mon|monday).*(to|-).*(sun|sunday).*(present|p)` */
  const RANGE_TO_SUN: seq<seq<string>> := [["mon", "monday"], ["to", "-"], ["sun", "sunday"], ["present", "p"]]

  /** The days a Monday-to-Saturday range marks present. */
  const WORKDAYS: seq<Day> := [Mon, Tue, Wed, Thu, Fri, Sat]

  /** A weekday's full name, its second token in the per-day rules. */
  function FullName(d: Day): string {
    match d
    case Mon => "monday"
    case Tue => "tuesday"
    case Wed => "wednesday"
    case Thu => "thursday"
    case Fri => "friday"
    case Sat => "saturday"
    case Sun => "sunday"
  }

  /** The tokens checked for a weekday, in order: its key, then its full name. */
  function Tokens(d: Day): seq<string> {
    [Key(d), FullName(d)]
  }

  /** `ot\s*<number>` */
  const OT_HOURS: seq<seq<string>> := [["ot"]]
  /** `(advance|deduction|fine)\s*<number>` */
  const DEDUCTION: seq<seq<string>> := [["advance", "deduction", "fine"]]
  /** `bonus\s*<number>` */
  const BONUS: seq<seq<string>> := [["bonus"]]
  /** `ot\s*rate\s*<number>` */
  const OT_RATE: seq<seq<string>> := [["ot"], ["rate"]]

  /** One per-day rule: if `token.*keyword` matches, the day becomes `status`. */
  datatype Check = Check(token: string, keyword: string, status: Status)

  predicate Fires(msg: string, c: Check) {
    Follows(msg, c.token, c.keyword)
  }

  /** The three checks made for one token, in order: half, absent, present. */
  function TokenChecks(t: string): (cs: seq<Check>)
    ensures |cs| == 3 && forall c | c in cs :: c.token == t
  {
    [Check(t, "half", H), Check(t, "absent", A), Check(t, "present", P)]
  }

  /** The checks made for a day's tokens, in the order the parser makes them. */
  function ChecksFor(tokens: seq<string>): seq<Check> {
    if tokens == [] then []
    else ChecksFor(tokens[..|tokens| - 1]) + TokenChecks(tokens[|tokens| - 1])
  }

  /** Three checks per token, each naming one of the tokens. */
  lemma {:induction false} ChecksForTokens(tokens: seq<string>)
    ensures |ChecksFor(tokens)| == 3 * |tokens|
    ensures forall c | c in ChecksFor(tokens) :: c.token in tokens
  {
    if tokens != [] {
      var front := tokens[..|tokens| - 1];
      ChecksForTokens(front);
      assert forall t | t in front :: t in tokens;
    }
  }

  /** The status the last firing check sets, or `init` when none fires. */
  function LastMatch(msg: string, checks: seq<Check>, init: Status): Status {
    if checks == [] then init
    else if Fires(msg, checks[|checks| - 1]) then checks[|checks| - 1].status
    else LastMatch(msg, checks[..|checks| - 1], init)
  }

  /** A day's mark after the range rules: a Sunday range marks every day, a Saturday range all but Sunday. */
  function RangeStatus(msg: string, d: Day): Status {
    if Search(msg, RANGE_TO_SUN) then P
    else if Search(msg, RANGE_TO_SAT) && d in WORKDAYS then P
    else A
  }

  /** A day's mark after its per-day rules ran over the range rules' result. */
  function DayStatus(msg: string, d: Day): Status {
    LastMatch(msg, ChecksFor(Tokens(d)), RangeStatus(msg, d))
  }

  /** The marks the keyword parser gives the lower-cased message `msg`. */
  function FallbackDays(msg: string): (w: Week)
    ensures IsWeek(w)
  {
    map d: Day :: DayStatus(msg, d)
  }

  /**
   * What `fallback_parse_attendance(message)` returns: it always succeeds,
   * gives all seven days, non-negative numbers, and no rate unless one is
   * written.
   */
  function Fallback(message: string): (r: Parsed)
    ensures IsWeek(r.days)
    ensures r.otHours >= 0.0 && r.bonus >= 0.0 && r.deduction >= 0.0
    ensures r.otRate.Some? ==> r.otRate.value >= 0.0
  {
    var msg := Lower(message);
    Parsed(
      FallbackDays(msg),
      ExtractNumber(msg, OT_HOURS).GetOr(0.0),
      ExtractNumber(msg, OT_RATE),
      ExtractNumber(msg, BONUS).GetOr(0.0),
      ExtractNumber(msg, DEDUCTION).GetOr(0.0))
  }

  /* ---------------- The parser, step by step ---------------- */

  /** The three checks for one token of a day, each able to overwrite the one before. */
  method ApplyTokenRules(msg: string, d: Day, t: string, days: Week) returns (out: Week)
    requires d in days
    ensures out == days[d := LastMatch(msg, TokenChecks(t), days[d])]
  {
    out := days;
    if Follows(msg, t, "half") { out := out[d := H]; }
    if Follows(msg, t, "absent") { out := out[d := A]; }
    if Follows(msg, t, "present") { out := out[d := P]; }
    TokenStep(msg, t, days[d]);
  }

  /**
   * The per-day rules for one day: each of its tokens is checked against
   * "half", "absent" and "present" in turn, every match overwriting the
   * day's mark. No other day is touched.
   */
  method ApplyDayRules(msg: string, d: Day, tokens: seq<string>, days: Week) returns (out: Week)
    requires d in days
    ensures out == days[d := LastMatch(msg, ChecksFor(tokens), days[d])]
    ensures forall e | e in days && e != d :: e in out && out[e] == days[e]
  {
    out := days;
    for j := 0 to |tokens|
      invariant out == days[d := LastMatch(msg, ChecksFor(tokens[..j]), days[d])]
    {
      assert out[d] == LastMatch(msg, ChecksFor(tokens[..j]), days[d]);
      out := ApplyTokenRules(msg, d, tokens[j], out);
      assert tokens[..j + 1][..j] == tokens[..j];
      assert ChecksFor(tokens[..j + 1]) == ChecksFor(tokens[..j]) + TokenChecks(tokens[j]);
      LastMatchConcat(msg, ChecksFor(tokens[..j]), TokenChecks(tokens[j]), days[d]);
    }
    assert tokens[..|tokens|] == tokens;
  }

  /** `for k in keys: days[k] = "P"` */
  method MarkPresent(days: Week, keys: seq<Day>) returns (out: Week)
    requires IsWeek(days)
    ensures IsWeek(out)
    ensures forall d: Day :: out[d] == if d in keys then P else days[d]
  {
    out := days;
    for i := 0 to |keys|
      invariant IsWeek(out)
      invariant forall d: Day :: out[d] == if d in keys[..i] then P else days[d]
    {
      assert keys[..i + 1] == keys[..i] + [keys[i]];
      out := out[keys[i] := P];
    }
    assert keys[..|keys|] == keys;
  }

  /** Start from all absent; the Saturday range first, then the Sunday range over its result. */
  method RangeRules(msg: string) returns (days: Week)
    ensures IsWeek(days)
    ensures forall d: Day :: days[d] == RangeStatus(msg, d)
  {
    days := AllAbsent();
    if Search(msg, RANGE_TO_SAT) {
      days := MarkPresent(days, WORKDAYS);
    }
    if Search(msg, RANGE_TO_SUN) {
      DayKeysDistinct();
      days := MarkPresent(days, DAY_KEYS);
    }
  }

  /** The per-day rules, one day after the other in weekday order, over the range rules' result. */
  method DayRules(msg: string, ranged: Week) returns (days: Week)
    requires IsWeek(ranged)
    requires forall d: Day :: ranged[d] == RangeStatus(msg, d)
    ensures days == FallbackDays(msg)
  {
    ghost var target := FallbackDays(msg);
    days := ranged;
    for i := 0 to |DAY_KEYS|
      invariant IsWeek(days)
      invariant forall d: Day :: days[d] == if IndexOfDay(d) < i then target[d] else ranged[d]
    {
      var d := DAY_KEYS[i];
      DayKeysDistinct();
      assert IndexOfDay(d) == i;
      ghost var before := days;
      assert before[d] == RangeStatus(msg, d);
      days := ApplyDayRules(msg, d, Tokens(d), days);
      assert days[d] == DayStatus(msg, d) == target[d];
      OverwriteStep(target, ranged, before, days, i);
    }
    WeekEquality(days, target);
  }

  /**
   * Overwriting the next weekday of `DAY_KEYS` with its final mark extends by
   * one the prefix of days that already hold their final mark.
   */
  lemma OverwriteStep(target: Week, ranged: Week, days: Week, next: Week, i: nat)
    requires i < |DAY_KEYS|
    requires IsWeek(target) && IsWeek(ranged) && IsWeek(days)
    requires forall d: Day :: days[d] == if IndexOfDay(d) < i then target[d] else ranged[d]
    requires next == days[DAY_KEYS[i] := target[DAY_KEYS[i]]]
    ensures IsWeek(next)
    ensures forall d: Day :: next[d] == if IndexOfDay(d) < i + 1 then target[d] else ranged[d]
  {
    DayKeysDistinct();
    assert IndexOfDay(DAY_KEYS[i]) == i;
  }

  /**
   * `fallback_parse_attendance`: start from all absent, apply the two range
   * rules, then every day's rules, then the four independent number searches.
   */
  method FallbackParse(message: string) returns (r: Parsed)
    ensures r == Fallback(message)
  {
    var msg := Lower(message);
    var ranged := RangeRules(msg);
    var days := DayRules(msg, ranged);
    var otHours := match ExtractNumber(msg, OT_HOURS) case Some(x) => x case None => 0.0;
    var deduction := match ExtractNumber(msg, DEDUCTION) case Some(x) => x case None => 0.0;
    var bonus := match ExtractNumber(msg, BONUS) case Some(x) => x case None => 0.0;
    var otRate: Option<real> := None;
    var m := ExtractNumber(msg, OT_RATE);
    if m.Some? {
      otRate := Some(m.value);
    }
    r := Parsed(days, otHours, otRate, bonus, deduction);
  }

  /* ---------------- Properties of the keyword parser ---------------- */

  /** Running checks a then checks b is running b from where a left off. */
  lemma {:induction false} LastMatchConcat(msg: string, a: seq<Check>, b: seq<Check>, init: Status)
    ensures LastMatch(msg, a + b, init) == LastMatch(msg, b, LastMatch(msg, a, init))
    decreases |b|
  {
    if b == [] {
      assert a + b == a;
    } else {
      assert (a + b)[..|a + b| - 1] == a + b[..|b| - 1];
      LastMatchConcat(msg, a, b[..|b| - 1], init);
    }
  }

  /** One token's three checks: "present" beats "absent" beats "half" beats the earlier mark. */
  lemma TokenStep(msg: string, t: string, init: Status)
    ensures LastMatch(msg, TokenChecks(t), init) ==
      if Follows(msg, t, "present") then P
      else if Follows(msg, t, "absent") then A
      else if Follows(msg, t, "half") then H
      else init
  {
    var cs := TokenChecks(t);
    assert cs[..2] == [cs[0], cs[1]] && cs[..2][..1] == [cs[0]] && [cs[0]][..0] == [];
    assert LastMatch(msg, [cs[0]], init) == if Fires(msg, cs[0]) then H else init;
    assert LastMatch(msg, cs[..2], init) == if Fires(msg, cs[1]) then A else LastMatch(msg, [cs[0]], init);
  }

  /** A day's six checks: its key's three, then its full name's three. */
  lemma DayChecks(d: Day)
    ensures ChecksFor(Tokens(d)) == TokenChecks(Key(d)) + TokenChecks(FullName(d))
  {
    var ts := Tokens(d);
    assert ts[..1] == [Key(d)] && [Key(d)][..0] == [];
    assert ChecksFor([Key(d)]) == TokenChecks(Key(d));
  }

  /**
   * A day's mark, spelled out: the full name's checks decide first, then the
   * key's, then the range rules. Within each token "present" beats "absent"
   * beats "half", because the later check overwrites the earlier one.
   */
  lemma DayStatusMeans(msg: string, d: Day)
    ensures DayStatus(msg, d) ==
      var init := RangeStatus(msg, d);
      var afterKey := LastMatch(msg, TokenChecks(Key(d)), init);
      LastMatch(msg, TokenChecks(FullName(d)), afterKey)
  {
    DayChecks(d);
    LastMatchConcat(msg, TokenChecks(Key(d)), TokenChecks(FullName(d)), RangeStatus(msg, d));
  }

  /**
   * The result of a sequence of checks is the status of the last one that
   * fires, or the initial status when none fires.
   */
  lemma {:induction false} LastMatchIsLastFiring(msg: string, checks: seq<Check>, init: Status)
    ensures (exists i | 0 <= i < |checks| ::
               Fires(msg, checks[i]) && LastMatch(msg, checks, init) == checks[i].status &&
               forall j | i < j < |checks| :: !Fires(msg, checks[j]))
         || ((forall i | 0 <= i < |checks| :: !Fires(msg, checks[i])) && LastMatch(msg, checks, init) == init)
    decreases |checks|
  {
    if checks != [] {
      var n := |checks| - 1;
      if !Fires(msg, checks[n]) {
        var front := checks[..n];
        LastMatchIsLastFiring(msg, front, init);
        assert forall i | 0 <= i < n :: front[i] == checks[i];
      }
    }
  }

  /** A check that does not fire cannot decide anything. */
  lemma {:induction false} LastMatchNoneFires(msg: string, checks: seq<Check>, init: Status)
    requires forall c | c in checks :: !Fires(msg, c)
    ensures LastMatch(msg, checks, init) == init
    decreases |checks|
  {
    if checks != [] {
      LastMatchNoneFires(msg, checks[..|checks| - 1], init);
    }
  }

  /** `t.*k` needs both t and k in the text. */
  lemma FollowsNeeds(msg: string, t: string, k: string)
    requires Follows(msg, t, k)
    ensures Contains(msg, t) && Contains(msg, k)
  {
    SearchNeeds(msg, [[t], [k]], 0);
    SearchNeeds(msg, [[t], [k]], 1);
  }

  /** A weekday's key is the first three letters of its full name. */
  lemma KeyStartsFullName(d: Day)
    ensures FullName(d) == Key(d) + FullName(d)[3..]
  {
    match d
    case Mon => case Tue => case Wed => case Thu => case Fri => case Sat => case Sun =>
  }

  /** A day whose key does not appear in the text keeps the range rules' mark. */
  lemma NoTokenKeepsRange(msg: string, d: Day)
    requires !Contains(msg, Key(d))
    ensures DayStatus(msg, d) == RangeStatus(msg, d)
  {
    KeyStartsFullName(d);
    if Contains(msg, FullName(d)) {
      ContainsPrefix(msg, Key(d), FullName(d)[3..]);
    }
    ChecksForTokens(Tokens(d));
    forall c | c in ChecksFor(Tokens(d))
      ensures !Fires(msg, c)
    {
      if Fires(msg, c) {
        FollowsNeeds(msg, c.token, c.keyword);
      }
    }
    LastMatchNoneFires(msg, ChecksFor(Tokens(d)), RangeStatus(msg, d));
  }

  /** With none of the three keywords in the text, every day keeps the range rules' mark. */
  lemma NoKeywordKeepsRange(msg: string, d: Day)
    requires !Contains(msg, "half") && !Contains(msg, "absent") && !Contains(msg, "present")
    ensures DayStatus(msg, d) == RangeStatus(msg, d)
  {
    DayChecks(d);
    forall c | c in ChecksFor(Tokens(d))
      ensures !Fires(msg, c)
    {
      if Fires(msg, c) {
        FollowsNeeds(msg, c.token, c.keyword);
      }
    }
    LastMatchNoneFires(msg, ChecksFor(Tokens(d)), RangeStatus(msg, d));
  }

  /** A day whose full name is followed, later on the same line, by "present" is marked present. */
  lemma FullNamePresentWins(message: string, d: Day)
    requires Follows(Lower(message), FullName(d), "present")
    ensures Fallback(message).days[d] == P
  {
    DayStatusMeans(Lower(message), d);
    TokenStep(Lower(message), FullName(d), LastMatch(Lower(message), TokenChecks(Key(d)), RangeStatus(Lower(message), d)));
  }

  /**
   * The range rules: a Sunday range marks all seven days present; a Saturday
   * range alone marks Monday to Saturday and leaves Sunday absent.
   */
  lemma RangeRulesEffect(msg: string)
    ensures Search(msg, RANGE_TO_SUN) ==> forall d: Day :: RangeStatus(msg, d) == P
    ensures !Search(msg, RANGE_TO_SUN) && Search(msg, RANGE_TO_SAT) ==>
              RangeStatus(msg, Sun) == A && forall d: Day :: d != Sun ==> RangeStatus(msg, d) == P
    ensures !Search(msg, RANGE_TO_SUN) && !Search(msg, RANGE_TO_SAT) ==> forall d: Day :: RangeStatus(msg, d) == A
  {
    forall d: Day | d != Sun
      ensures d in WORKDAYS
    {
      assert WORKDAYS[IndexOfDay(d)] == d;
    }
  }

  /** Neither range rule fires without "mon" in the text. */
  lemma NoMondayNoRange(msg: string)
    requires !Contains(msg, "mon")
    ensures !Search(msg, RANGE_TO_SAT) && !Search(msg, RANGE_TO_SUN)
  {
    if Contains(msg, "monday") {
      assert "monday" == "mon" + "day";
      ContainsPrefix(msg, "mon", "day");
    }
    if Search(msg, RANGE_TO_SUN) {
      SearchNeeds(msg, RANGE_TO_SUN, 0);
      assert false;
    }
    if Search(msg, RANGE_TO_SAT) {
      SearchNeeds(msg, RANGE_TO_SAT, 0);
      assert false;
    }
  }

  /** Without "to" or "-" in the text neither range rule fires: a range written with another dash marks nothing. */
  lemma NoConnectorNoRange(msg: string)
    requires !Contains(msg, "to") && !Contains(msg, "-")
    ensures forall d: Day :: RangeStatus(msg, d) == A
  {
    if Search(msg, RANGE_TO_SUN) {
      SearchNeeds(msg, RANGE_TO_SUN, 1);
      assert false;
    }
    if Search(msg, RANGE_TO_SAT) {
      SearchNeeds(msg, RANGE_TO_SAT, 1);
      assert false;
    }
  }

  /** Text without any day key marks every day absent. */
  lemma NoDayKeysAllAbsent(msg: string)
    requires forall d: Day :: !Contains(msg, Key(d))
    ensures FallbackDays(msg) == AllAbsent()
  {
    assert !Contains(msg, Key(Mon));
    NoMondayNoRange(msg);
    forall d: Day
      ensures FallbackDays(msg)[d] == A
    {
      NoTokenKeepsRange(msg, d);
    }
    WeekEquality(FallbackDays(msg), AllAbsent());
  }

  /**
   * Text in which none of the recognised words appears parses to all
   * absent, zero numbers and no rate.
   */
  lemma NoRecognisedWords(message: string)
    requires forall d: Day :: !Contains(Lower(message), Key(d))
    requires !Contains(Lower(message), "ot") && !Contains(Lower(message), "bonus")
    requires !Contains(Lower(message), "advance") && !Contains(Lower(message), "deduction") && !Contains(Lower(message), "fine")
    ensures Fallback(message) == Parsed(AllAbsent(), 0.0, None, 0.0, 0.0)
  {
    var msg := Lower(message);
    NoDayKeysAllAbsent(msg);
    ExtractNeedsEachWord(msg, OT_HOURS, 0);
    ExtractNeedsEachWord(msg, OT_RATE, 0);
    ExtractNeedsEachWord(msg, BONUS, 0);
    ExtractNeedsEachWord(msg, DEDUCTION, 0);
  }

  /** The empty message parses to all absent, zero numbers and no rate. */
  lemma EmptyMessage()
    ensures Fallback("") == Parsed(AllAbsent(), 0.0, None, 0.0, 0.0)
  {
    assert Lower("") == "";
    forall t: string | t != []
      ensures !Contains("", t)
    {
      ContainsMeans("", t);
    }
    NoRecognisedWords("");
  }
}
