/**
 * The keyword parser on short messages, worked out completely: the five
 * pieces of the attendance box's placeholder text ("Mon–Sat present, Wed
 * half day, OT 3 hours, advance 500, bonus 200"), a range written with
 * "to", an overtime rate, and "ot" found inside another word.
 *
 * What the parser reads of a literal message is stated in MessageFacts as
 * facts about its characters; the lemmas here derive each result from
 * those facts alone.
 */
module ParserExamples {
  import opened Wrappers
  import opened Ascii
  import opened Calc
  import opened TextMatch
  import opened Llm
  import opened MessageFacts

  /* ---------------- Per-day rules ---------------- */

  /** A day whose full name is absent is decided by its key's checks over the range rules. */
  lemma KeyDecides(msg: string, d: Day)
    requires !Contains(msg, FullName(d))
    ensures DayStatus(msg, d) == LastMatch(msg, TokenChecks(Key(d)), RangeStatus(msg, d))
  {
    DayStatusMeans(msg, d);
    forall c | c in TokenChecks(FullName(d))
      ensures !Fires(msg, c)
    {
      if Fires(msg, c) {
        FollowsNeeds(msg, c.token, c.keyword);
      }
    }
    LastMatchNoneFires(msg, TokenChecks(FullName(d)), LastMatch(msg, TokenChecks(Key(d)), RangeStatus(msg, d)));
  }

  /** A day whose key is followed by "present", and whose full name is absent, is present. */
  lemma KeyPresent(msg: string, d: Day)
    requires !Contains(msg, FullName(d)) && Follows(msg, Key(d), "present")
    ensures DayStatus(msg, d) == P
  {
    KeyDecides(msg, d);
    TokenStep(msg, Key(d), RangeStatus(msg, d));
  }

  /**
   * A day whose key is followed by "half", in a text with neither "present"
   * nor "absent" and without the day's full name, is a half day.
   */
  lemma KeyHalf(msg: string, d: Day)
    requires !Contains(msg, FullName(d)) && Follows(msg, Key(d), "half")
    requires !Contains(msg, "present") && !Contains(msg, "absent")
    ensures DayStatus(msg, d) == H
  {
    KeyDecides(msg, d);
    TokenStep(msg, Key(d), RangeStatus(msg, d));
    if Follows(msg, Key(d), "present") {
      FollowsNeeds(msg, Key(d), "present");
    }
    if Follows(msg, Key(d), "absent") {
      FollowsNeeds(msg, Key(d), "absent");
    }
  }

  /**
   * Two days whose keys are followed by "present" and whose full names are
   * absent are present; every day whose key is absent keeps its range mark.
   */
  lemma PresentByKeys(msg: string, a: Day, b: Day)
    requires !Contains(msg, FullName(a)) && Follows(msg, Key(a), "present")
    requires !Contains(msg, FullName(b)) && Follows(msg, Key(b), "present")
    requires forall d: Day :: d != a && d != b ==> !Contains(msg, Key(d))
    ensures forall d: Day :: FallbackDays(msg)[d] == if d == a || d == b then P else RangeStatus(msg, d)
  {
    forall d: Day
      ensures FallbackDays(msg)[d] == if d == a || d == b then P else RangeStatus(msg, d)
    {
      if d == a || d == b {
        KeyPresent(msg, d);
      } else {
        NoTokenKeepsRange(msg, d);
      }
    }
  }

  /** A Saturday range found from "mon" at i, "to" at j, "sat" at k and "present" at l. */
  lemma SaturdayRangeAt(msg: string, i: nat, j: nat, k: nat, l: nat)
    requires '\n' !in msg
    requires OccursAt(msg, i, "mon") && i + 3 <= j && OccursAt(msg, j, "to") && j + 2 <= k
    requires OccursAt(msg, k, "sat") && k + 3 <= l && OccursAt(msg, l, "present")
    ensures Search(msg, RANGE_TO_SAT)
  {
    var pat := RANGE_TO_SAT;
    assert pat[3..][1..] == [] && pat[2..][1..] == pat[3..] && pat[1..][1..] == pat[2..];
    assert RestFrom(msg, l + 7, pat[3..][1..]);
    RestFromAt(msg, k + 3, l, "present", pat[3..]);
    RestFromAt(msg, j + 2, k, "sat", pat[2..]);
    RestFromAt(msg, i + 3, j, "to", pat[1..]);
    SearchAt(msg, i, "mon", pat);
  }

  /* ---------------- Number searches ---------------- */

  /**
   * The first alternative of a one-word pattern at p, no alternative
   * anywhere before p, and a numeral without a fraction after the
   * whitespace: the search finds that numeral.
   */
  lemma LeftmostNumber(s: string, alts: seq<string>, p: nat, q: nat, e: nat)
    requires alts != [] && OccursAt(s, p, alts[0])
    requires forall j, a | 0 <= j < p && a in alts :: !OccursAt(s, j, a)
    requires SpaceEnd(s, p + |alts[0]|) == q && DigitEnd(s, q) == e && q < e
    requires e < |s| ==> s[e] != '.'
    ensures ExtractNumber(s, [alts]) == Some(DigitsValue(s[q..e]) as real)
  {
    assert AllDigits(s[q..e]);
    FindSkips(s, 0, p, [alts]);
    assert DecimalAt(s, q) == Some(Number(DigitsValue(s[q..e]) as real, e));
    assert [alts][0] == alts && [alts][1..] == [];
    assert NumberAfter(s, p, [alts]) == TryAlternatives(s, p, alts, []);
  }

  /** The same for the two-word pattern `w\s*v\s*<number>`, w at p and v after the whitespace. */
  lemma LeftmostPairNumber(s: string, w: string, v: string, p: nat, q: nat, r: nat, e: nat)
    requires OccursAt(s, p, w) && forall j | 0 <= j < p :: !OccursAt(s, j, w)
    requires SpaceEnd(s, p + |w|) == q && OccursAt(s, q, v)
    requires SpaceEnd(s, q + |v|) == r && DigitEnd(s, r) == e && r < e
    requires e < |s| ==> s[e] != '.'
    ensures ExtractNumber(s, [[w], [v]]) == Some(DigitsValue(s[r..e]) as real)
  {
    FindSkips(s, 0, p, [[w], [v]]);
    PairNumberAt(s, w, v, p, q, r, e);
    assert FindNumber(s, p, [[w], [v]]) == Some(Hit(p, Number(DigitsValue(s[r..e]) as real, e)));
  }

  /** The two-word pattern matched at p reads the numeral after the second word. */
  lemma PairNumberAt(s: string, w: string, v: string, p: nat, q: nat, r: nat, e: nat)
    requires OccursAt(s, p, w) && SpaceEnd(s, p + |w|) == q && OccursAt(s, q, v)
    requires SpaceEnd(s, q + |v|) == r && DigitEnd(s, r) == e && r < e
    requires e < |s| ==> s[e] != '.'
    ensures p <= |s| && NumberAfter(s, p, [[w], [v]]) == Some(Number(DigitsValue(s[r..e]) as real, e))
  {
    assert AllDigits(s[r..e]);
    assert NumberAfter(s, r, []) == Some(Number(DigitsValue(s[r..e]) as real, e));
    assert [[v]][0] == [v] && [[v]][1..] == [];
    assert [[w], [v]][0] == [w] && [[w], [v]][1..] == [[v]];
    assert NumberAfter(s, q, [[v]]) == TryAlternatives(s, q, [v], []);
    assert NumberAfter(s, p, [[w], [v]]) == TryAlternatives(s, p, [w], [[v]]);
  }

  /** The word of a one-word pattern occurs only at p and no digit follows it: the search fails. */
  lemma OnlyOccurrenceNoNumber(s: string, w: string, p: nat)
    requires OccursAt(s, p, w) && forall j: nat | j != p :: !OccursAt(s, j, w)
    requires SpaceEnd(s, p + |w|) == |s| || !IsDigit(s[SpaceEnd(s, p + |w|)])
    ensures ExtractNumber(s, [[w]]) == None
  {
    assert [[w]][0] == [w] && [[w]][1..] == [] && [w][1..] == [];
    assert NumberAfter(s, SpaceEnd(s, p + |w|), []).None?;
    forall j | 0 <= j <= |s|
      ensures NumberAfter(s, j, [[w]]).None?
    {
      assert NumberAfter(s, j, [[w]]) == TryAlternatives(s, j, [w], []);
    }
  }

  /** A text without "ot", "bonus" or any deduction word yields no numbers. */
  lemma NoNumberWords(msg: string)
    requires !Contains(msg, "ot") && !Contains(msg, "bonus")
    requires !Contains(msg, "advance") && !Contains(msg, "deduction") && !Contains(msg, "fine")
    ensures ExtractNumber(msg, OT_HOURS) == None && ExtractNumber(msg, OT_RATE) == None
    ensures ExtractNumber(msg, BONUS) == None && ExtractNumber(msg, DEDUCTION) == None
  {
    ExtractNeedsEachWord(msg, OT_HOURS, 0);
    ExtractNeedsEachWord(msg, OT_RATE, 0);
    ExtractNeedsEachWord(msg, BONUS, 0);
    ExtractNeedsEachWord(msg, DEDUCTION, 0);
  }

  /** Neither "sun" nor "sunday" in the text: the Sunday range cannot fire. */
  lemma NoSundayNoSundayRange(msg: string)
    requires !Contains(msg, "sun") && !Contains(msg, "sunday")
    ensures !Search(msg, RANGE_TO_SUN)
  {
    if Search(msg, RANGE_TO_SUN) {
      SearchNeeds(msg, RANGE_TO_SUN, 2);
      assert false;
    }
  }

  /* ---------------- "Mon–Sat present" ---------------- */

  /**
   * The opening of the placeholder text: the en dash is neither "to" nor
   * "-", so no range rule fires and only the two named days are present.
   */
  lemma DashRangeExample()
    ensures Fallback("Mon–" + "Sat present") ==
      Parsed(map[Mon := P, Tue := A, Wed := A, Thu := A, Fri := A, Sat := P, Sun := A], 0.0, None, 0.0, 0.0)
  {
    var msg := Lower("Mon–" + "Sat present");
    DashRangeLetters(msg);
    DashRangeWords(msg);
    DashRangeDays(msg);
    MondayAndSaturdayWeek(FallbackDays(msg));
    DashRangeNumberWords(msg);
    NoNumberWords(msg);
  }

  lemma DashRangeDays(msg: string)
    requires DrawnFrom(msg, DASH_RANGE_LETTERS) && NoPair(msg, 't', 'o')
    requires '\n' !in msg && OccursAt(msg, 0, "mon") && OccursAt(msg, 4, "sat") && OccursAt(msg, 8, "present")
    ensures forall d: Day :: FallbackDays(msg)[d] == if d == Mon || d == Sat then P else A
  {
    DashRangeConnectors(msg);
    DashRangeKeys(msg);
    FollowsAt(msg, 0, "mon", 8, "present");
    FollowsAt(msg, 4, "sat", 8, "present");
    NoConnectorNoRange(msg);
    PresentByKeys(msg, Mon, Sat);
  }

  /** The day words and connectors the letters of "Mon–Sat present" cannot spell. */
  lemma DashRangeConnectors(msg: string)
    requires DrawnFrom(msg, DASH_RANGE_LETTERS) && NoPair(msg, 't', 'o')
    ensures !Contains(msg, "to") && !Contains(msg, "-")
    ensures !Contains(msg, FullName(Mon)) && !Contains(msg, FullName(Sat))
  {
    ContainsNeedsPair(msg, "to", 0);
    ContainsNeedsLetter(msg, DASH_RANGE_LETTERS, "-", '-');
    ContainsNeedsLetter(msg, DASH_RANGE_LETTERS, FullName(Mon), 'd');
    ContainsNeedsLetter(msg, DASH_RANGE_LETTERS, FullName(Sat), 'u');
  }

  lemma DashRangeKeys(msg: string)
    requires DrawnFrom(msg, DASH_RANGE_LETTERS)
    ensures forall d: Day :: d != Mon && d != Sat ==> !Contains(msg, Key(d))
  {
    forall d: Day | d != Mon && d != Sat
      ensures !Contains(msg, Key(d))
    {
      match d
      case Tue => ContainsNeedsLetter(msg, DASH_RANGE_LETTERS, "tue", 'u');
      case Wed => ContainsNeedsLetter(msg, DASH_RANGE_LETTERS, "wed", 'w');
      case Thu => ContainsNeedsLetter(msg, DASH_RANGE_LETTERS, "thu", 'h');
      case Fri => ContainsNeedsLetter(msg, DASH_RANGE_LETTERS, "fri", 'f');
      case Sun => ContainsNeedsLetter(msg, DASH_RANGE_LETTERS, "sun", 'u');
    }
  }

  /** The number words the letters of "Mon–Sat present" cannot spell. */
  lemma DashRangeNumberWords(msg: string)
    requires msg == Lower("Mon–" + "Sat present")
    ensures !Contains(msg, "ot") && !Contains(msg, "bonus")
    ensures !Contains(msg, "advance") && !Contains(msg, "deduction") && !Contains(msg, "fine")
  {
    DashRangeLetters(msg);
    ContainsNeedsPair(msg, "ot", 0);
    ContainsNeedsLetter(msg, DASH_RANGE_LETTERS, "bonus", 'b');
    ContainsNeedsLetter(msg, DASH_RANGE_LETTERS, "advance", 'd');
    ContainsNeedsLetter(msg, DASH_RANGE_LETTERS, "deduction", 'd');
    ContainsNeedsLetter(msg, DASH_RANGE_LETTERS, "fine", 'f');
  }

  /** The week that marks exactly Monday and Saturday present. */
  lemma MondayAndSaturdayWeek(w: Week)
    requires IsWeek(w)
    requires forall d: Day :: w[d] == if d == Mon || d == Sat then P else A
    ensures w == map[Mon := P, Tue := A, Wed := A, Thu := A, Fri := A, Sat := P, Sun := A]
  {
    var expected := map[Mon := P, Tue := A, Wed := A, Thu := A, Fri := A, Sat := P, Sun := A];
    forall d: Day
      ensures w[d] == expected[d]
    {
      match d
      case Mon => case Tue => case Wed => case Thu => case Fri => case Sat => case Sun =>
    }
    WeekEquality(w, expected);
  }

  /* ---------------- "Wed half day" ---------------- */

  /** The second piece of the placeholder text: Wednesday is a half day, every other day absent. */
  lemma WedHalfExample()
    ensures forall d: Day :: Fallback("Wed " + "half day").days[d] == if d == Wed then H else A
    ensures Fallback("Wed " + "half day").otHours == 0.0 && Fallback("Wed " + "half day").otRate == None
    ensures Fallback("Wed " + "half day").bonus == 0.0 && Fallback("Wed " + "half day").deduction == 0.0
  {
    var msg := Lower("Wed " + "half day");
    WedHalfDays(msg);
    WedHalfNumberWords(msg);
    NoNumberWords(msg);
  }

  lemma WedHalfDays(msg: string)
    requires msg == Lower("Wed " + "half day")
    ensures forall d: Day :: FallbackDays(msg)[d] == if d == Wed then H else A
  {
    WedHalfLetters(msg);
    WedHalfWords(msg);
    WedHalfKeys(msg);
    FollowsAt(msg, 0, "wed", 4, "half");
    NoMondayNoRange(msg);
    forall d: Day
      ensures FallbackDays(msg)[d] == if d == Wed then H else A
    {
      if d == Wed {
        KeyHalf(msg, d);
      } else {
        NoTokenKeepsRange(msg, d);
      }
    }
  }

  /** The day words and marks the letters of "Wed half day" cannot spell. */
  lemma WedHalfKeys(msg: string)
    requires DrawnFrom(msg, WED_HALF_LETTERS)
    ensures forall d: Day :: d != Wed ==> !Contains(msg, Key(d))
    ensures !Contains(msg, "mon") && !Contains(msg, FullName(Wed))
    ensures !Contains(msg, "present") && !Contains(msg, "absent")
  {
    forall d: Day | d != Wed
      ensures !Contains(msg, Key(d))
    {
      match d
      case Mon => ContainsNeedsLetter(msg, WED_HALF_LETTERS, "mon", 'm');
      case Tue => ContainsNeedsLetter(msg, WED_HALF_LETTERS, "tue", 't');
      case Thu => ContainsNeedsLetter(msg, WED_HALF_LETTERS, "thu", 't');
      case Fri => ContainsNeedsLetter(msg, WED_HALF_LETTERS, "fri", 'r');
      case Sat => ContainsNeedsLetter(msg, WED_HALF_LETTERS, "sat", 's');
      case Sun => ContainsNeedsLetter(msg, WED_HALF_LETTERS, "sun", 's');
    }
    assert Key(Mon) == "mon";
    ContainsNeedsLetter(msg, WED_HALF_LETTERS, FullName(Wed), 'n');
    ContainsNeedsLetter(msg, WED_HALF_LETTERS, "present", 'p');
    ContainsNeedsLetter(msg, WED_HALF_LETTERS, "absent", 'b');
  }

  /** The number words the letters of "Wed half day" cannot spell. */
  lemma WedHalfNumberWords(msg: string)
    requires msg == Lower("Wed " + "half day")
    ensures !Contains(msg, "ot") && !Contains(msg, "bonus")
    ensures !Contains(msg, "advance") && !Contains(msg, "deduction") && !Contains(msg, "fine")
  {
    WedHalfLetters(msg);
    ContainsNeedsLetter(msg, WED_HALF_LETTERS, "ot", 'o');
    ContainsNeedsLetter(msg, WED_HALF_LETTERS, "bonus", 'b');
    ContainsNeedsLetter(msg, WED_HALF_LETTERS, "advance", 'v');
    ContainsNeedsLetter(msg, WED_HALF_LETTERS, "deduction", 'u');
    ContainsNeedsLetter(msg, WED_HALF_LETTERS, "fine", 'i');
  }

  /* ---------------- "OT 3 hours" ---------------- */

  /** The third piece of the placeholder text: three overtime hours, and no day marked. */
  lemma OtHoursExample()
    ensures Fallback("OT " + "3 hours") == Parsed(AllAbsent(), 3.0, None, 0.0, 0.0)
  {
    var msg := Lower("OT " + "3 hours");
    OtHoursKeys(msg);
    NoDayKeysAllAbsent(msg);
    OtHoursNumbers(msg);
  }

  lemma OtHoursKeys(msg: string)
    requires msg == Lower("OT " + "3 hours")
    ensures forall d: Day :: !Contains(msg, Key(d))
  {
    OtHoursLetters(msg);
    forall d: Day
      ensures !Contains(msg, Key(d))
    {
      match d
      case Mon => ContainsNeedsLetter(msg, OT_HOURS_LETTERS, "mon", 'm');
      case Tue => ContainsNeedsLetter(msg, OT_HOURS_LETTERS, "tue", 'e');
      case Wed => ContainsNeedsLetter(msg, OT_HOURS_LETTERS, "wed", 'w');
      case Thu => ContainsNeedsPair(msg, "thu", 0);
      case Fri => ContainsNeedsLetter(msg, OT_HOURS_LETTERS, "fri", 'f');
      case Sat => ContainsNeedsLetter(msg, OT_HOURS_LETTERS, "sat", 'a');
      case Sun => ContainsNeedsLetter(msg, OT_HOURS_LETTERS, "sun", 'n');
    }
  }

  lemma OtHoursNumbers(msg: string)
    requires msg == Lower("OT " + "3 hours")
    ensures ExtractNumber(msg, OT_HOURS) == Some(3.0) && ExtractNumber(msg, OT_RATE) == None
    ensures ExtractNumber(msg, BONUS) == None && ExtractNumber(msg, DEDUCTION) == None
  {
    OtHoursOvertime(msg);
    OtHoursExtras(msg);
  }

  lemma OtHoursOvertime(msg: string)
    requires msg == Lower("OT " + "3 hours")
    ensures ExtractNumber(msg, OT_HOURS) == Some(3.0) && ExtractNumber(msg, OT_RATE) == None
  {
    OtHoursLetters(msg);
    OtHoursWords(msg);
    LeftmostNumber(msg, ["ot"], 0, 3, 4);
    ContainsNeedsLetter(msg, OT_HOURS_LETTERS, "rate", 'a');
    ExtractNeedsEachWord(msg, OT_RATE, 1);
  }

  lemma OtHoursExtras(msg: string)
    requires msg == Lower("OT " + "3 hours")
    ensures ExtractNumber(msg, BONUS) == None && ExtractNumber(msg, DEDUCTION) == None
  {
    OtHoursLetters(msg);
    ContainsNeedsLetter(msg, OT_HOURS_LETTERS, "bonus", 'b');
    ExtractNeedsEachWord(msg, BONUS, 0);
    ContainsNeedsLetter(msg, OT_HOURS_LETTERS, "advance", 'a');
    ContainsNeedsLetter(msg, OT_HOURS_LETTERS, "deduction", 'd');
    ContainsNeedsLetter(msg, OT_HOURS_LETTERS, "fine", 'f');
    ExtractNeedsEachWord(msg, DEDUCTION, 0);
  }

  /* ---------------- "advance 500" ---------------- */

  /** The fourth piece of the placeholder text: an advance of 500 is a deduction of 500. */
  lemma AdvanceExample()
    ensures Fallback("advance " + "500") == Parsed(AllAbsent(), 0.0, None, 0.0, 500.0)
  {
    var msg := Lower("advance " + "500");
    AdvanceKeys(msg);
    NoDayKeysAllAbsent(msg);
    AdvanceNumbers(msg);
  }

  lemma AdvanceKeys(msg: string)
    requires msg == Lower("advance " + "500")
    ensures forall d: Day :: !Contains(msg, Key(d))
  {
    AdvanceLetters(msg);
    forall d: Day
      ensures !Contains(msg, Key(d))
    {
      match d
      case Mon => ContainsNeedsLetter(msg, ADVANCE_LETTERS, "mon", 'm');
      case Tue => ContainsNeedsLetter(msg, ADVANCE_LETTERS, "tue", 't');
      case Wed => ContainsNeedsLetter(msg, ADVANCE_LETTERS, "wed", 'w');
      case Thu => ContainsNeedsLetter(msg, ADVANCE_LETTERS, "thu", 't');
      case Fri => ContainsNeedsLetter(msg, ADVANCE_LETTERS, "fri", 'f');
      case Sat => ContainsNeedsLetter(msg, ADVANCE_LETTERS, "sat", 's');
      case Sun => ContainsNeedsLetter(msg, ADVANCE_LETTERS, "sun", 's');
    }
  }

  lemma AdvanceNumbers(msg: string)
    requires msg == Lower("advance " + "500")
    ensures ExtractNumber(msg, OT_HOURS) == None && ExtractNumber(msg, OT_RATE) == None
    ensures ExtractNumber(msg, BONUS) == None && ExtractNumber(msg, DEDUCTION) == Some(500.0)
  {
    AdvanceOvertime(msg);
    AdvanceExtras(msg);
  }

  lemma AdvanceOvertime(msg: string)
    requires msg == Lower("advance " + "500")
    ensures ExtractNumber(msg, OT_HOURS) == None && ExtractNumber(msg, OT_RATE) == None
  {
    AdvanceLetters(msg);
    ContainsNeedsLetter(msg, ADVANCE_LETTERS, "ot", 'o');
    ExtractNeedsEachWord(msg, OT_HOURS, 0);
    ExtractNeedsEachWord(msg, OT_RATE, 0);
  }

  lemma AdvanceExtras(msg: string)
    requires msg == Lower("advance " + "500")
    ensures ExtractNumber(msg, BONUS) == None && ExtractNumber(msg, DEDUCTION) == Some(500.0)
  {
    AdvanceLetters(msg);
    AdvanceWords(msg);
    AdvanceNumber(msg);
    ContainsNeedsLetter(msg, ADVANCE_LETTERS, "bonus", 'b');
    ExtractNeedsEachWord(msg, BONUS, 0);
    LeftmostNumber(msg, DEDUCTION[0], 0, 8, 11);
  }

  /* ---------------- "bonus 200" ---------------- */

  /** The last piece of the placeholder text: a bonus of 200. */
  lemma BonusExample()
    ensures Fallback("bonus " + "200") == Parsed(AllAbsent(), 0.0, None, 200.0, 0.0)
  {
    var msg := Lower("bonus " + "200");
    BonusKeys(msg);
    NoDayKeysAllAbsent(msg);
    BonusNumbers(msg);
  }

  lemma BonusKeys(msg: string)
    requires msg == Lower("bonus " + "200")
    ensures forall d: Day :: !Contains(msg, Key(d))
  {
    BonusLetters(msg);
    forall d: Day
      ensures !Contains(msg, Key(d))
    {
      match d
      case Mon => ContainsNeedsLetter(msg, BONUS_LETTERS, "mon", 'm');
      case Tue => ContainsNeedsLetter(msg, BONUS_LETTERS, "tue", 't');
      case Wed => ContainsNeedsLetter(msg, BONUS_LETTERS, "wed", 'w');
      case Thu => ContainsNeedsLetter(msg, BONUS_LETTERS, "thu", 't');
      case Fri => ContainsNeedsLetter(msg, BONUS_LETTERS, "fri", 'f');
      case Sat => ContainsNeedsLetter(msg, BONUS_LETTERS, "sat", 'a');
      case Sun => ContainsNeedsPair(msg, "sun", 0);
    }
  }

  lemma BonusNumbers(msg: string)
    requires msg == Lower("bonus " + "200")
    ensures ExtractNumber(msg, OT_HOURS) == None && ExtractNumber(msg, OT_RATE) == None
    ensures ExtractNumber(msg, BONUS) == Some(200.0) && ExtractNumber(msg, DEDUCTION) == None
  {
    BonusOvertime(msg);
    BonusExtras(msg);
  }

  lemma BonusOvertime(msg: string)
    requires msg == Lower("bonus " + "200")
    ensures ExtractNumber(msg, OT_HOURS) == None && ExtractNumber(msg, OT_RATE) == None
  {
    BonusLetters(msg);
    ContainsNeedsPair(msg, "ot", 0);
    ExtractNeedsEachWord(msg, OT_HOURS, 0);
    ExtractNeedsEachWord(msg, OT_RATE, 0);
  }

  lemma BonusExtras(msg: string)
    requires msg == Lower("bonus " + "200")
    ensures ExtractNumber(msg, BONUS) == Some(200.0) && ExtractNumber(msg, DEDUCTION) == None
  {
    BonusAmount(msg);
    BonusNoDeduction(msg);
  }

  lemma BonusAmount(msg: string)
    requires msg == Lower("bonus " + "200")
    ensures ExtractNumber(msg, BONUS) == Some(200.0)
  {
    BonusWords(msg);
    BonusNumber(msg);
    LeftmostNumber(msg, ["bonus"], 0, 6, 9);
  }

  lemma BonusNoDeduction(msg: string)
    requires msg == Lower("bonus " + "200")
    ensures ExtractNumber(msg, DEDUCTION) == None
  {
    BonusLetters(msg);
    ContainsNeedsLetter(msg, BONUS_LETTERS, "advance", 'a');
    ContainsNeedsLetter(msg, BONUS_LETTERS, "deduction", 'd');
    ContainsNeedsLetter(msg, BONUS_LETTERS, "fine", 'f');
    ExtractNeedsEachWord(msg, DEDUCTION, 0);
  }

  /* ---------------- "Mon to Sat present" ---------------- */

  /** A range written with "to" marks Monday to Saturday present and leaves Sunday absent. */
  lemma ToRangeExample()
    ensures forall d: Day :: Fallback("Mon to " + "Sat present").days[d] == if d == Sun then A else P
    ensures Fallback("Mon to " + "Sat present").otHours == 0.0 && Fallback("Mon to " + "Sat present").otRate == None
    ensures Fallback("Mon to " + "Sat present").bonus == 0.0 && Fallback("Mon to " + "Sat present").deduction == 0.0
  {
    var msg := Lower("Mon to " + "Sat present");
    ToRangeLetters(msg);
    ToRangeWords(msg);
    ToRangeMarks(msg);
    ToRangeDays(msg);
    ToRangeNumberWords(msg);
    NoNumberWords(msg);
  }

  lemma ToRangeDays(msg: string)
    requires DrawnFrom(msg, TO_RANGE_LETTERS) && NoPair(msg, 'o', 't')
    requires OccursAt(msg, 0, "mon") && OccursAt(msg, 4, "to")
    requires OccursAt(msg, 7, "sat") && OccursAt(msg, 11, "present")
    ensures forall d: Day :: FallbackDays(msg)[d] == if d == Sun then A else P
  {
    ToRangeRanges(msg);
    ToRangeKeyMarks(msg);
    forall d: Day
      ensures FallbackDays(msg)[d] == if d == Sun then A else P
    {
    }
  }

  /** Monday and Saturday are marked by their keys, the other days by the range rules. */
  lemma ToRangeKeyMarks(msg: string)
    requires DrawnFrom(msg, TO_RANGE_LETTERS)
    requires OccursAt(msg, 0, "mon") && OccursAt(msg, 7, "sat") && OccursAt(msg, 11, "present")
    ensures forall d: Day :: FallbackDays(msg)[d] == if d == Mon || d == Sat then P else RangeStatus(msg, d)
  {
    ToRangeKeys(msg);
    assert '\n' !in msg;
    FollowsAt(msg, 0, "mon", 11, "present");
    FollowsAt(msg, 7, "sat", 11, "present");
    PresentByKeys(msg, Mon, Sat);
  }

  /** Only the Saturday range fires: Monday to Saturday start out present, Sunday absent. */
  lemma ToRangeRanges(msg: string)
    requires DrawnFrom(msg, TO_RANGE_LETTERS)
    requires OccursAt(msg, 0, "mon") && OccursAt(msg, 4, "to")
    requires OccursAt(msg, 7, "sat") && OccursAt(msg, 11, "present")
    ensures RangeStatus(msg, Sun) == A && forall d: Day :: d != Sun ==> RangeStatus(msg, d) == P
  {
    ToRangeSearches(msg);
    RangeRulesEffect(msg);
  }

  /** The Saturday range pattern is found, the Sunday one is not. */
  lemma ToRangeSearches(msg: string)
    requires DrawnFrom(msg, TO_RANGE_LETTERS)
    requires OccursAt(msg, 0, "mon") && OccursAt(msg, 4, "to")
    requires OccursAt(msg, 7, "sat") && OccursAt(msg, 11, "present")
    ensures Search(msg, RANGE_TO_SAT) && !Search(msg, RANGE_TO_SUN)
  {
    assert '\n' !in msg;
    SaturdayRangeAt(msg, 0, 4, 7, 11);
    ToRangeNoSunday(msg);
  }

  lemma ToRangeNoSunday(msg: string)
    requires DrawnFrom(msg, TO_RANGE_LETTERS)
    ensures !Search(msg, RANGE_TO_SUN)
  {
    ContainsNeedsLetter(msg, TO_RANGE_LETTERS, "sun", 'u');
    ContainsNeedsLetter(msg, TO_RANGE_LETTERS, "sunday", 'u');
    NoSundayNoSundayRange(msg);
  }

  /** The day words the letters of "Mon to Sat present" cannot spell. */
  lemma ToRangeKeys(msg: string)
    requires DrawnFrom(msg, TO_RANGE_LETTERS)
    ensures forall d: Day :: d != Mon && d != Sat ==> !Contains(msg, Key(d))
    ensures !Contains(msg, FullName(Mon)) && !Contains(msg, FullName(Sat))
  {
    forall d: Day | d != Mon && d != Sat
      ensures !Contains(msg, Key(d))
    {
      match d
      case Tue => ContainsNeedsLetter(msg, TO_RANGE_LETTERS, "tue", 'u');
      case Wed => ContainsNeedsLetter(msg, TO_RANGE_LETTERS, "wed", 'w');
      case Thu => ContainsNeedsLetter(msg, TO_RANGE_LETTERS, "thu", 'h');
      case Fri => ContainsNeedsLetter(msg, TO_RANGE_LETTERS, "fri", 'f');
      case Sun => ContainsNeedsLetter(msg, TO_RANGE_LETTERS, "sun", 'u');
    }
    ContainsNeedsLetter(msg, TO_RANGE_LETTERS, FullName(Mon), 'd');
    ContainsNeedsLetter(msg, TO_RANGE_LETTERS, FullName(Sat), 'u');
  }

  /** The number words the letters of "Mon to Sat present" cannot spell. */
  lemma ToRangeNumberWords(msg: string)
    requires msg == Lower("Mon to " + "Sat present")
    ensures !Contains(msg, "ot") && !Contains(msg, "bonus")
    ensures !Contains(msg, "advance") && !Contains(msg, "deduction") && !Contains(msg, "fine")
  {
    ToRangeLetters(msg);
    ContainsNeedsPair(msg, "ot", 0);
    ContainsNeedsLetter(msg, TO_RANGE_LETTERS, "bonus", 'b');
    ContainsNeedsLetter(msg, TO_RANGE_LETTERS, "advance", 'd');
    ContainsNeedsLetter(msg, TO_RANGE_LETTERS, "deduction", 'd');
    ContainsNeedsLetter(msg, TO_RANGE_LETTERS, "fine", 'f');
  }

  /* ---------------- "ot rate 50" ---------------- */

  /**
   * An overtime rate: "ot" is followed by "rate", not by a numeral, so no
   * overtime hours are read, and the rate is 50.
   */
  lemma OtRateExample()
    ensures Fallback("ot " + "rate 50") == Parsed(AllAbsent(), 0.0, Some(50.0), 0.0, 0.0)
  {
    var msg := Lower("ot " + "rate 50");
    OtRateKeys(msg);
    NoDayKeysAllAbsent(msg);
    OtRateNumbers(msg);
  }

  lemma OtRateKeys(msg: string)
    requires msg == Lower("ot " + "rate 50")
    ensures forall d: Day :: !Contains(msg, Key(d))
  {
    OtRateLetters(msg);
    forall d: Day
      ensures !Contains(msg, Key(d))
    {
      match d
      case Mon => ContainsNeedsLetter(msg, OT_RATE_LETTERS, "mon", 'm');
      case Tue => ContainsNeedsLetter(msg, OT_RATE_LETTERS, "tue", 'u');
      case Wed => ContainsNeedsLetter(msg, OT_RATE_LETTERS, "wed", 'w');
      case Thu => ContainsNeedsLetter(msg, OT_RATE_LETTERS, "thu", 'h');
      case Fri => ContainsNeedsLetter(msg, OT_RATE_LETTERS, "fri", 'f');
      case Sat => ContainsNeedsLetter(msg, OT_RATE_LETTERS, "sat", 's');
      case Sun => ContainsNeedsLetter(msg, OT_RATE_LETTERS, "sun", 's');
    }
  }

  lemma OtRateNumbers(msg: string)
    requires msg == Lower("ot " + "rate 50")
    ensures ExtractNumber(msg, OT_HOURS) == None && ExtractNumber(msg, OT_RATE) == Some(50.0)
    ensures ExtractNumber(msg, BONUS) == None && ExtractNumber(msg, DEDUCTION) == None
  {
    OtRateOvertime(msg);
    OtRateExtras(msg);
  }

  lemma OtRateOvertime(msg: string)
    requires msg == Lower("ot " + "rate 50")
    ensures ExtractNumber(msg, OT_HOURS) == None && ExtractNumber(msg, OT_RATE) == Some(50.0)
  {
    OtRateLetters(msg);
    OtRateWords(msg);
    OtRateNumber(msg);
    OccursOnlyAt(msg, "ot", 0);
    OnlyOccurrenceNoNumber(msg, "ot", 0);
    LeftmostPairNumber(msg, "ot", "rate", 0, 3, 8, 10);
  }

  lemma OtRateExtras(msg: string)
    requires msg == Lower("ot " + "rate 50")
    ensures ExtractNumber(msg, BONUS) == None && ExtractNumber(msg, DEDUCTION) == None
  {
    OtRateLetters(msg);
    ContainsNeedsLetter(msg, OT_RATE_LETTERS, "bonus", 'b');
    ExtractNeedsEachWord(msg, BONUS, 0);
    ContainsNeedsLetter(msg, OT_RATE_LETTERS, "advance", 'd');
    ContainsNeedsLetter(msg, OT_RATE_LETTERS, "deduction", 'd');
    ContainsNeedsLetter(msg, OT_RATE_LETTERS, "fine", 'f');
    ExtractNeedsEachWord(msg, DEDUCTION, 0);
  }

  /* ---------------- "slot 2" ---------------- */

  /** The overtime search has no word boundary: "ot" inside "slot" reads two overtime hours. */
  lemma InsideWordExample()
    ensures Fallback("slot " + "2") == Parsed(AllAbsent(), 2.0, None, 0.0, 0.0)
  {
    var msg := Lower("slot " + "2");
    SlotKeys(msg);
    NoDayKeysAllAbsent(msg);
    SlotNumbers(msg);
  }

  lemma SlotKeys(msg: string)
    requires msg == Lower("slot " + "2")
    ensures forall d: Day :: !Contains(msg, Key(d))
  {
    SlotLetters(msg);
    forall d: Day
      ensures !Contains(msg, Key(d))
    {
      match d
      case Mon => ContainsNeedsLetter(msg, SLOT_LETTERS, "mon", 'm');
      case Tue => ContainsNeedsLetter(msg, SLOT_LETTERS, "tue", 'u');
      case Wed => ContainsNeedsLetter(msg, SLOT_LETTERS, "wed", 'w');
      case Thu => ContainsNeedsLetter(msg, SLOT_LETTERS, "thu", 'h');
      case Fri => ContainsNeedsLetter(msg, SLOT_LETTERS, "fri", 'f');
      case Sat => ContainsNeedsLetter(msg, SLOT_LETTERS, "sat", 'a');
      case Sun => ContainsNeedsLetter(msg, SLOT_LETTERS, "sun", 'u');
    }
  }

  lemma SlotNumbers(msg: string)
    requires msg == Lower("slot " + "2")
    ensures ExtractNumber(msg, OT_HOURS) == Some(2.0) && ExtractNumber(msg, OT_RATE) == None
    ensures ExtractNumber(msg, BONUS) == None && ExtractNumber(msg, DEDUCTION) == None
  {
    SlotOvertime(msg);
    SlotExtras(msg);
  }

  lemma SlotOvertime(msg: string)
    requires msg == Lower("slot " + "2")
    ensures ExtractNumber(msg, OT_HOURS) == Some(2.0) && ExtractNumber(msg, OT_RATE) == None
  {
    SlotLetters(msg);
    SlotWords(msg);
    LeftmostNumber(msg, ["ot"], 2, 5, 6);
    ContainsNeedsLetter(msg, SLOT_LETTERS, "rate", 'r');
    ExtractNeedsEachWord(msg, OT_RATE, 1);
  }

  lemma SlotExtras(msg: string)
    requires msg == Lower("slot " + "2")
    ensures ExtractNumber(msg, BONUS) == None && ExtractNumber(msg, DEDUCTION) == None
  {
    SlotLetters(msg);
    ContainsNeedsLetter(msg, SLOT_LETTERS, "bonus", 'b');
    ExtractNeedsEachWord(msg, BONUS, 0);
    ContainsNeedsLetter(msg, SLOT_LETTERS, "advance", 'a');
    ContainsNeedsLetter(msg, SLOT_LETTERS, "deduction", 'd');
    ContainsNeedsLetter(msg, SLOT_LETTERS, "fine", 'f');
    ExtractNeedsEachWord(msg, DEDUCTION, 0);
  }

  /* ---------------- The whole placeholder text ---------------- */

  /** Two parts of a message listed with ", " between them, as the placeholder text lists its items. */
  function CommaJoin(x: string, y: string): string {
    x + ", " + y
  }

  /** "Wed half day, OT 3 hours, advance 500, bonus 200": the placeholder text after its first item. */
  const REST := CommaJoin("Wed " + "half day", CommaJoin("OT " + "3 hours", CommaJoin("advance " + "500", "bonus " + "200")))

  /** "Mon–Sat present, Wed half day, OT 3 hours, advance 500, bonus 200" */
  const PLACEHOLDER := CommaJoin("Mon–" + "Sat present", REST)

  /** "Mon to Sat present, Wed half day, OT 3 hours, advance 500, bonus 200" */
  const TO_RANGE_MESSAGE := CommaJoin("Mon to " + "Sat present", REST)

  /**
   * The placeholder text read whole: the en dash makes no range, so Monday
   * and Saturday are present by their keys, Wednesday is a half day and the
   * other days are absent; 3 overtime hours, no rate, a bonus of 200 and a
   * deduction of 500.
   */
  lemma PlaceholderExample()
    ensures Fallback(PLACEHOLDER) ==
      Parsed(map[Mon := P, Tue := A, Wed := H, Thu := A, Fri := A, Sat := P, Sun := A], 3.0, None, 200.0, 500.0)
  {
    var h := Lower("Mon–" + "Sat present");
    var w := Lower(REST);
    LowerCommaJoin("Mon–" + "Sat present", REST);
    DashRangeLetters(h);
    DashRangeWords(h);
    DashRangeRa(h);
    DashHeadApart(h);
    RestRead();
    JoinedNumbers(h, w);
    DashJoinedDays(h, w);
  }

  /**
   * The same message with the range written "Mon to Sat": the Saturday range
   * marks Monday to Saturday present, Wednesday's "half" then makes it a
   * half day, and Sunday stays absent; the numbers are as before.
   */
  lemma ToRangeMessageExample()
    ensures Fallback(TO_RANGE_MESSAGE) ==
      Parsed(map[Mon := P, Tue := P, Wed := H, Thu := P, Fri := P, Sat := P, Sun := A], 3.0, None, 200.0, 500.0)
  {
    var h := Lower("Mon to " + "Sat present");
    var w := Lower(REST);
    LowerCommaJoin("Mon to " + "Sat present", REST);
    ToRangeLetters(h);
    ToRangeWords(h);
    ToRangeMarks(h);
    ToRangeRa(h);
    ToHeadApart(h);
    RestRead();
    JoinedNumbers(h, w);
    ToJoinedDays(h, w);
  }

  lemma LowerCommaJoin(x: string, y: string)
    ensures Lower(CommaJoin(x, y)) == CommaJoin(Lower(x), Lower(y))
  {
    LowerAppend(x + ", ", y);
    LowerAppend(x, ", ");
    assert Lower(", ") == ", ";
  }

  /** A pair of letters absent from both parts is absent from the parts listed together. */
  lemma JoinPair(x: string, y: string, a: char, b: char)
    requires NoPair(x, a, b) && NoPair(y, a, b)
    requires a != ',' && a != ' ' && b != ','
    ensures NoPair(CommaJoin(x, y), a, b)
  {
    assert NoPair(", ", a, b);
    NoPairConcat(x, ", ", a, b);
    NoPairConcat(x + ", ", y, a, b);
  }

  lemma JoinKeepsApart(x: string, y: string)
    requires KeepsApart(x) && KeepsApart(y)
    ensures KeepsApart(CommaJoin(x, y))
  {
    JoinPair(x, y, 'n', 'd');
    JoinPair(x, y, 'r', 'd');
    JoinPair(x, y, 's', 'd');
    JoinPair(x, y, 'u', 'e');
    JoinPair(x, y, 't', 'h');
    JoinPair(x, y, 's', 'u');
    JoinPair(x, y, 'a', 'b');
    JoinPair(x, y, 'r', 'a');
  }

  lemma LiftLeft(x: string, y: string, i: nat, t: string)
    requires OccursAt(x, i, t)
    ensures OccursAt(CommaJoin(x, y), i, t)
  {
    OccursInLeft(x, ", ", i, t);
    OccursInLeft(x + ", ", y, i, t);
  }

  lemma LiftRight(x: string, y: string, i: nat, t: string)
    requires OccursAt(y, i, t)
    ensures OccursAt(CommaJoin(x, y), |x| + 2 + i, t)
  {
    OccursInRight(x + ", ", y, i, t);
  }

  /* The searches for numbers across listed parts */

  /** A part before the others that holds no alternative of the first word is passed over by the search. */
  lemma SkipPart(x: string, y: string, words: seq<seq<string>>)
    requires words != []
    requires forall a | a in words[0] :: ' ' !in a && !Contains(x + ", ", a)
    ensures ExtractNumber(CommaJoin(x, y), words) == ExtractNumber(y, words)
  {
    ExtractAfterPrefix(x + ", ", y, words);
  }

  lemma SkipForOvertime(x: string, y: string)
    requires NoPair(x, 'o', 't')
    ensures ExtractNumber(CommaJoin(x, y), OT_HOURS) == ExtractNumber(y, OT_HOURS)
  {
    assert NoPair(", ", 'o', 't');
    NoPairConcat(x, ", ", 'o', 't');
    ContainsNeedsPair(x + ", ", "ot", 0);
    assert OT_HOURS[0] == ["ot"];
    SkipPart(x, y, OT_HOURS);
  }

  lemma SkipForDeduction(x: string, y: string)
    requires 'v' !in x && 'i' !in x
    ensures ExtractNumber(CommaJoin(x, y), DEDUCTION) == ExtractNumber(y, DEDUCTION)
  {
    ContainsNeedsChar(x + ", ", "advance", 'v');
    ContainsNeedsChar(x + ", ", "deduction", 'i');
    ContainsNeedsChar(x + ", ", "fine", 'i');
    assert DEDUCTION[0] == ["advance", "deduction", "fine"];
    SkipPart(x, y, DEDUCTION);
  }

  lemma SkipForBonus(x: string, y: string)
    requires 'b' !in x
    ensures ExtractNumber(CommaJoin(x, y), BONUS) == ExtractNumber(y, BONUS)
  {
    ContainsNeedsChar(x + ", ", "bonus", 'b');
    assert BONUS[0] == ["bonus"];
    SkipPart(x, y, BONUS);
  }

  /** The comma that lists the parts stops every number search. */
  lemma CommaIsBoundary()
    ensures Boundary(',', OT_HOURS) && Boundary(',', DEDUCTION) && Boundary(',', BONUS)
  {
    assert OT_HOURS == [["ot"]] && BONUS == [["bonus"]];
    assert DEDUCTION == [["advance", "deduction", "fine"]];
  }

  /** A part whose search succeeds keeps its number when other parts follow it. */
  lemma KeepFirstPart(x: string, y: string, words: seq<seq<string>>)
    requires ExtractNumber(x, words).Some? && Boundary(',', words)
    ensures ExtractNumber(CommaJoin(x, y), words) == ExtractNumber(x, words)
  {
    assert CommaJoin(x, y) == x + (", " + y);
    ExtractBeforeSuffix(x, ", " + y, words);
  }

  /* What the parser reads of the parts after the first */

  /** The letters, pairs and words the day rules need to know of the lower-cased text after the first item. */
  predicate RestText(w: string) {
    KeepsApart(w) && NoPair(w, 't', 'o') &&
    '\n' !in w && '-' !in w && 'i' !in w && 'p' !in w &&
    OccursAt(w, 0, "wed") && OccursAt(w, 4, "half")
  }

  /** The amounts the number searches find in the text after the first item. */
  predicate RestAmounts(w: string) {
    ExtractNumber(w, OT_HOURS) == Some(3.0) && ExtractNumber(w, DEDUCTION) == Some(500.0) &&
    ExtractNumber(w, BONUS) == Some(200.0)
  }

  lemma RestRead()
    ensures RestText(Lower(REST)) && RestAmounts(Lower(REST))
  {
    var b := Lower("Wed " + "half day");
    var c := Lower("OT " + "3 hours");
    var d := Lower("advance " + "500");
    var e := Lower("bonus " + "200");
    LowerCommaJoin("advance " + "500", "bonus " + "200");
    LowerCommaJoin("OT " + "3 hours", CommaJoin("advance " + "500", "bonus " + "200"));
    LowerCommaJoin("Wed " + "half day", CommaJoin("OT " + "3 hours", CommaJoin("advance " + "500", "bonus " + "200")));
    WedHalfLetters(b);
    WedHalfWords(b);
    WedPartApart(b);
    OtHoursLetters(c);
    OtHoursPairs(c);
    OtHoursOvertime(c);
    OtPartApart(c);
    AdvanceLetters(d);
    AdvancePairs(d);
    AdvanceExtras(d);
    AdvancePartApart(d);
    BonusLetters(e);
    BonusAmount(e);
    BonusPartApart(e);
    RestLetters(b, c, d, e);
    RestNumbers(b, c, d, e);
    LiftLeft(b, CommaJoin(c, CommaJoin(d, e)), 0, "wed");
    LiftLeft(b, CommaJoin(c, CommaJoin(d, e)), 4, "half");
  }

  /** The pairs and characters the four parts lack, the list of them lacks too. */
  lemma RestLetters(b: string, c: string, d: string, e: string)
    requires KeepsApart(b) && KeepsApart(c) && KeepsApart(d) && KeepsApart(e)
    requires NoPair(b, 't', 'o') && NoPair(c, 't', 'o') && NoPair(d, 't', 'o') && NoPair(e, 't', 'o')
    requires '\n' !in b && '-' !in b && 'i' !in b && 'p' !in b
    requires '\n' !in c && '-' !in c && 'i' !in c && 'p' !in c
    requires '\n' !in d && '-' !in d && 'i' !in d && 'p' !in d
    requires '\n' !in e && '-' !in e && 'i' !in e && 'p' !in e
    ensures var w := CommaJoin(b, CommaJoin(c, CommaJoin(d, e)));
      KeepsApart(w) && NoPair(w, 't', 'o') && '\n' !in w && '-' !in w && 'i' !in w && 'p' !in w
  {
    JoinKeepsApart(d, e);
    JoinKeepsApart(c, CommaJoin(d, e));
    JoinKeepsApart(b, CommaJoin(c, CommaJoin(d, e)));
    JoinPair(d, e, 't', 'o');
    JoinPair(c, CommaJoin(d, e), 't', 'o');
    JoinPair(b, CommaJoin(c, CommaJoin(d, e)), 't', 'o');
  }

  /**
   * The overtime hours come from the second part, the deduction from the
   * third and the bonus from the fourth: each search passes over the parts
   * before the one that holds its word and stops at the comma after it.
   */
  lemma RestNumbers(b: string, c: string, d: string, e: string)
    requires NoPair(b, 'o', 't') && 'v' !in b && 'i' !in b && 'b' !in b
    requires 'v' !in c && 'i' !in c && 'b' !in c && 'b' !in d
    requires ExtractNumber(c, OT_HOURS) == Some(3.0) && ExtractNumber(d, DEDUCTION) == Some(500.0)
    requires ExtractNumber(e, BONUS) == Some(200.0)
    ensures var w := CommaJoin(b, CommaJoin(c, CommaJoin(d, e)));
      ExtractNumber(w, OT_HOURS) == Some(3.0) && ExtractNumber(w, DEDUCTION) == Some(500.0) &&
      ExtractNumber(w, BONUS) == Some(200.0)
  {
    CommaIsBoundary();
    var w3 := CommaJoin(d, e);
    var w2 := CommaJoin(c, w3);
    SkipForOvertime(b, w2);
    KeepFirstPart(c, w3, OT_HOURS);
    SkipForDeduction(b, w2);
    SkipForDeduction(c, w3);
    KeepFirstPart(d, e, DEDUCTION);
    SkipForBonus(b, w2);
    SkipForBonus(c, w3);
    SkipForBonus(d, e);
  }

  lemma WedPartApart(b: string)
    requires DrawnFrom(b, WED_HALF_LETTERS)
    ensures KeepsApart(b) && NoPair(b, 'o', 't') && NoPair(b, 't', 'o')
    ensures '\n' !in b && '-' !in b && 'i' !in b && 'p' !in b && 'v' !in b && 'b' !in b
  {
    var l := WED_HALF_LETTERS;
    NoPairNotDrawn(b, l, 'n', 'd');
    NoPairNotDrawn(b, l, 'r', 'd');
    NoPairNotDrawn(b, l, 's', 'd');
    NoPairNotDrawn(b, l, 'u', 'e');
    NoPairNotDrawn(b, l, 't', 'h');
    NoPairNotDrawn(b, l, 's', 'u');
    NoPairNotDrawn(b, l, 'a', 'b');
    NoPairNotDrawn(b, l, 'r', 'a');
    NoPairNotDrawn(b, l, 'o', 't');
    NoPairNotDrawn(b, l, 't', 'o');
    NotDrawn(b, l, '\n');
    NotDrawn(b, l, '-');
    NotDrawn(b, l, 'i');
    NotDrawn(b, l, 'p');
    NotDrawn(b, l, 'v');
    NotDrawn(b, l, 'b');
  }

  lemma OtPartApart(c: string)
    requires DrawnFrom(c, OT_HOURS_LETTERS) && NoPair(c, 't', 'h') && NoPair(c, 's', 'u') && NoPair(c, 't', 'o')
    ensures KeepsApart(c)
    ensures '\n' !in c && '-' !in c && 'i' !in c && 'p' !in c && 'v' !in c && 'b' !in c
  {
    var l := OT_HOURS_LETTERS;
    NoPairNotDrawn(c, l, 'n', 'd');
    NoPairNotDrawn(c, l, 'r', 'd');
    NoPairNotDrawn(c, l, 's', 'd');
    NoPairNotDrawn(c, l, 'u', 'e');
    NoPairNotDrawn(c, l, 'a', 'b');
    NoPairNotDrawn(c, l, 'r', 'a');
    NotDrawn(c, l, '\n');
    NotDrawn(c, l, '-');
    NotDrawn(c, l, 'i');
    NotDrawn(c, l, 'p');
    NotDrawn(c, l, 'v');
    NotDrawn(c, l, 'b');
  }

  lemma AdvancePartApart(d: string)
    requires DrawnFrom(d, ADVANCE_LETTERS) && NoPair(d, 'n', 'd')
    ensures KeepsApart(d) && NoPair(d, 't', 'o')
    ensures '\n' !in d && '-' !in d && 'i' !in d && 'p' !in d && 'b' !in d
  {
    var l := ADVANCE_LETTERS;
    NoPairNotDrawn(d, l, 'r', 'd');
    NoPairNotDrawn(d, l, 's', 'd');
    NoPairNotDrawn(d, l, 'u', 'e');
    NoPairNotDrawn(d, l, 't', 'h');
    NoPairNotDrawn(d, l, 's', 'u');
    NoPairNotDrawn(d, l, 'a', 'b');
    NoPairNotDrawn(d, l, 'r', 'a');
    NoPairNotDrawn(d, l, 't', 'o');
    NotDrawn(d, l, '\n');
    NotDrawn(d, l, '-');
    NotDrawn(d, l, 'i');
    NotDrawn(d, l, 'p');
    NotDrawn(d, l, 'b');
  }

  lemma BonusPartApart(e: string)
    requires DrawnFrom(e, BONUS_LETTERS) && NoPair(e, 's', 'u')
    ensures KeepsApart(e) && NoPair(e, 't', 'o')
    ensures '\n' !in e && '-' !in e && 'i' !in e && 'p' !in e
  {
    var l := BONUS_LETTERS;
    NoPairNotDrawn(e, l, 'n', 'd');
    NoPairNotDrawn(e, l, 'r', 'd');
    NoPairNotDrawn(e, l, 's', 'd');
    NoPairNotDrawn(e, l, 'u', 'e');
    NoPairNotDrawn(e, l, 't', 'h');
    NoPairNotDrawn(e, l, 'a', 'b');
    NoPairNotDrawn(e, l, 'r', 'a');
    NoPairNotDrawn(e, l, 't', 'o');
    NotDrawn(e, l, '\n');
    NotDrawn(e, l, '-');
    NotDrawn(e, l, 'i');
    NotDrawn(e, l, 'p');
  }

  /* The first item, and the whole message */

  /** What the parser needs to know of the lower-cased first item. */
  predicate HeadFacts(h: string) {
    KeepsApart(h) && NoPair(h, 'o', 't') &&
    '\n' !in h && '-' !in h && 'i' !in h && 'w' !in h && 'v' !in h && 'b' !in h
  }

  lemma DashHeadApart(h: string)
    requires DrawnFrom(h, DASH_RANGE_LETTERS) && NoPair(h, 'o', 't') && NoPair(h, 'r', 'a')
    ensures HeadFacts(h)
  {
    DashLettersLack();
    HeadApart(h, DASH_RANGE_LETTERS);
  }

  lemma ToHeadApart(h: string)
    requires DrawnFrom(h, TO_RANGE_LETTERS) && NoPair(h, 'o', 't') && NoPair(h, 'r', 'a')
    ensures HeadFacts(h)
  {
    ToLettersLack();
    HeadApart(h, TO_RANGE_LETTERS);
  }

  /** Both first items are written without d, u, h, b, w, i, v, "-" or a line break. */
  lemma DashLettersLack()
    ensures var l := DASH_RANGE_LETTERS;
      'd' !in l && 'u' !in l && 'h' !in l && 'b' !in l && 'w' !in l && 'i' !in l && 'v' !in l && '-' !in l && '\n' !in l
  {
  }

  lemma ToLettersLack()
    ensures var l := TO_RANGE_LETTERS;
      'd' !in l && 'u' !in l && 'h' !in l && 'b' !in l && 'w' !in l && 'i' !in l && 'v' !in l && '-' !in l && '\n' !in l
  {
  }

  lemma HeadApart(h: string, l: string)
    requires DrawnFrom(h, l) && NoPair(h, 'o', 't') && NoPair(h, 'r', 'a')
    requires 'd' !in l && 'u' !in l && 'h' !in l && 'b' !in l && 'w' !in l
    requires 'i' !in l && 'v' !in l && '-' !in l && '\n' !in l
    ensures HeadFacts(h)
  {
    NoPairNotDrawn(h, l, 'n', 'd');
    NoPairNotDrawn(h, l, 'r', 'd');
    NoPairNotDrawn(h, l, 's', 'd');
    NoPairNotDrawn(h, l, 'u', 'e');
    NoPairNotDrawn(h, l, 't', 'h');
    NoPairNotDrawn(h, l, 's', 'u');
    NoPairNotDrawn(h, l, 'a', 'b');
    NotDrawn(h, l, '\n');
    NotDrawn(h, l, '-');
    NotDrawn(h, l, 'i');
    NotDrawn(h, l, 'w');
    NotDrawn(h, l, 'v');
    NotDrawn(h, l, 'b');
  }

  /** The four numbers of the whole message: the first item holds none of the number words. */
  lemma JoinedNumbers(h: string, w: string)
    requires NoPair(h, 'o', 't') && 'v' !in h && 'i' !in h && 'b' !in h
    requires NoPair(h, 'r', 'a') && NoPair(w, 'r', 'a') && RestAmounts(w)
    ensures var msg := CommaJoin(h, w);
      ExtractNumber(msg, OT_HOURS) == Some(3.0) && ExtractNumber(msg, OT_RATE) == None &&
      ExtractNumber(msg, BONUS) == Some(200.0) && ExtractNumber(msg, DEDUCTION) == Some(500.0)
  {
    SkipForOvertime(h, w);
    SkipForDeduction(h, w);
    SkipForBonus(h, w);
    JoinPair(h, w, 'r', 'a');
    NoRateWithoutRa(CommaJoin(h, w));
  }

  /** Without "ra" there is no "rate", so no overtime rate. */
  lemma NoRateWithoutRa(msg: string)
    requires NoPair(msg, 'r', 'a')
    ensures ExtractNumber(msg, OT_RATE) == None
  {
    ContainsNeedsPair(msg, "rate", 0);
    assert OT_RATE[1] == ["rate"];
    ExtractNeedsEachWord(msg, OT_RATE, 1);
  }

  /**
   * Wednesday's "half" follows its key in the second item, and nothing of
   * the first item can start a "wed" that "present" follows.
   */
  lemma JoinedWednesday(h: string, w: string)
    requires '\n' !in h && 'w' !in h && '\n' !in w && 'p' !in w
    requires OccursAt(w, 0, "wed") && OccursAt(w, 4, "half")
    ensures '\n' !in CommaJoin(h, w)
    ensures Follows(CommaJoin(h, w), "wed", "half") && !Follows(CommaJoin(h, w), "wed", "present")
  {
    var msg := CommaJoin(h, w);
    LiftRight(h, w, 0, "wed");
    LiftRight(h, w, 4, "half");
    FollowsAt(msg, |h| + 2, "wed", |h| + 6, "half");
    ContainsNeedsChar(h + ", ", "wed", 'w');
    ContainsNeedsChar(w, "present", 'p');
    NotFollowsAcross(h + ", ", w, "wed", "present");
  }

  /** The marks the whole message gives: Monday and Saturday present, Wednesday a half day, the rest by range. */
  function ListedMark(msg: string, d: Day): Status {
    if d == Mon || d == Sat then P else if d == Wed then H else RangeStatus(msg, d)
  }

  /** What the listed message says, in the terms the per-day rules read. */
  predicate MarkFacts(msg: string) {
    KeepsApart(msg) && 'i' !in msg &&
    Follows(msg, "mon", "present") && Follows(msg, "sat", "present") &&
    Follows(msg, "wed", "half") && !Follows(msg, "wed", "present")
  }

  /** Every day of a text with these facts gets its listed mark. */
  lemma ListedMarks(msg: string)
    requires MarkFacts(msg)
    ensures forall d: Day :: DayStatus(msg, d) == ListedMark(msg, d)
  {
    forall d: Day
      ensures DayStatus(msg, d) == ListedMark(msg, d)
    {
      DayMark(msg, d);
    }
  }

  lemma DayMark(msg: string, d: Day)
    requires MarkFacts(msg)
    ensures DayStatus(msg, d) == ListedMark(msg, d)
  {
    if d == Mon {
      MondayMark(msg);
    } else if d == Sat {
      SaturdayMark(msg);
    } else if d == Wed {
      WednesdayMark(msg);
    } else if d == Tue {
      ContainsNeedsPair(msg, "tue", 1);
      NoTokenKeepsRange(msg, d);
    } else if d == Thu {
      ContainsNeedsPair(msg, "thu", 0);
      NoTokenKeepsRange(msg, d);
    } else if d == Fri {
      ContainsNeedsChar(msg, "fri", 'i');
      NoTokenKeepsRange(msg, d);
    } else {
      ContainsNeedsPair(msg, "sun", 0);
      NoTokenKeepsRange(msg, d);
    }
  }

  lemma MondayMark(msg: string)
    requires NoPair(msg, 'n', 'd') && Follows(msg, "mon", "present")
    ensures DayStatus(msg, Mon) == P
  {
    ContainsNeedsPair(msg, "monday", 2);
    KeyPresent(msg, Mon);
  }

  lemma SaturdayMark(msg: string)
    requires NoPair(msg, 'r', 'd') && Follows(msg, "sat", "present")
    ensures DayStatus(msg, Sat) == P
  {
    ContainsNeedsPair(msg, "saturday", 4);
    KeyPresent(msg, Sat);
  }

  lemma WednesdayMark(msg: string)
    requires NoPair(msg, 's', 'd') && NoPair(msg, 'a', 'b')
    requires Follows(msg, "wed", "half") && !Follows(msg, "wed", "present")
    ensures DayStatus(msg, Wed) == H
  {
    ContainsNeedsPair(msg, "wednesday", 5);
    ContainsNeedsPair(msg, "absent", 0);
    KeyHalfAlone(msg, Wed);
  }

  /**
   * A day whose key is followed by "half" but not by "present", in a text
   * without "absent" or the day's full name, is a half day.
   */
  lemma KeyHalfAlone(msg: string, d: Day)
    requires !Contains(msg, FullName(d)) && Follows(msg, Key(d), "half")
    requires !Follows(msg, Key(d), "present") && !Contains(msg, "absent")
    ensures DayStatus(msg, d) == H
  {
    KeyDecides(msg, d);
    TokenStep(msg, Key(d), RangeStatus(msg, d));
    if Follows(msg, Key(d), "absent") {
      FollowsNeeds(msg, Key(d), "absent");
    }
  }

  /**
   * The listed message, given where its first item writes "mon", "sat" and
   * "present", has the facts the per-day rules read.
   */
  lemma JoinedMarkFacts(h: string, w: string, i: nat, j: nat, k: nat)
    requires HeadFacts(h) && RestText(w)
    requires OccursAt(h, i, "mon") && OccursAt(h, j, "sat") && OccursAt(h, k, "present")
    requires i + 3 <= k && j + 3 <= k
    ensures MarkFacts(CommaJoin(h, w))
  {
    var msg := CommaJoin(h, w);
    JoinKeepsApart(h, w);
    JoinedWednesday(h, w);
    JoinedPresent(h, w, i, k, "mon");
    JoinedPresent(h, w, j, k, "sat");
  }

  /** A key the first item writes before its "present" is followed by "present" in the listed message. */
  lemma JoinedPresent(h: string, w: string, i: nat, k: nat, key: string)
    requires '\n' !in h && '\n' !in w
    requires OccursAt(h, i, key) && OccursAt(h, k, "present") && i + |key| <= k
    ensures Follows(CommaJoin(h, w), key, "present")
  {
    LiftLeft(h, w, i, key);
    LiftLeft(h, w, k, "present");
    FollowsAt(CommaJoin(h, w), i, key, k, "present");
  }

  /** The placeholder's days: no "to" and no "-", so no range. */
  lemma DashJoinedDays(h: string, w: string)
    requires HeadFacts(h) && NoPair(h, 't', 'o') && RestText(w)
    requires OccursAt(h, 0, "mon") && OccursAt(h, 4, "sat") && OccursAt(h, 8, "present")
    ensures FallbackDays(CommaJoin(h, w)) == map[Mon := P, Tue := A, Wed := H, Thu := A, Fri := A, Sat := P, Sun := A]
  {
    var msg := CommaJoin(h, w);
    JoinedMarkFacts(h, w, 0, 4, 8);
    ListedMarks(msg);
    JoinPair(h, w, 't', 'o');
    ContainsNeedsPair(msg, "to", 0);
    ContainsNeedsChar(msg, "-", '-');
    NoConnectorNoRange(msg);
    PlaceholderWeek(FallbackDays(msg));
  }

  /** The days of the message with "Mon to Sat": the Saturday range fires, the Sunday one does not. */
  lemma ToJoinedDays(h: string, w: string)
    requires HeadFacts(h) && RestText(w)
    requires OccursAt(h, 0, "mon") && OccursAt(h, 4, "to") && OccursAt(h, 7, "sat") && OccursAt(h, 11, "present")
    ensures FallbackDays(CommaJoin(h, w)) == map[Mon := P, Tue := P, Wed := H, Thu := P, Fri := P, Sat := P, Sun := A]
  {
    var msg := CommaJoin(h, w);
    JoinedMarkFacts(h, w, 0, 7, 11);
    ListedMarks(msg);
    JoinedSaturdayRange(h, w);
    RangeRulesEffect(msg);
    ToRangeMessageWeek(FallbackDays(msg));
  }

  /** "mon to sat present" in the first item makes the Saturday range; nothing writes "sun". */
  lemma JoinedSaturdayRange(h: string, w: string)
    requires '\n' !in h && '\n' !in w && NoPair(h, 's', 'u') && NoPair(w, 's', 'u')
    requires OccursAt(h, 0, "mon") && OccursAt(h, 4, "to") && OccursAt(h, 7, "sat") && OccursAt(h, 11, "present")
    ensures Search(CommaJoin(h, w), RANGE_TO_SAT) && !Search(CommaJoin(h, w), RANGE_TO_SUN)
  {
    var msg := CommaJoin(h, w);
    JoinPair(h, w, 's', 'u');
    LiftLeft(h, w, 0, "mon");
    LiftLeft(h, w, 4, "to");
    LiftLeft(h, w, 7, "sat");
    LiftLeft(h, w, 11, "present");
    SaturdayRangeAt(msg, 0, 4, 7, 11);
    ContainsNeedsPair(msg, "sun", 0);
    ContainsNeedsPair(msg, "sunday", 0);
    NoSundayNoSundayRange(msg);
  }

  lemma PlaceholderWeek(w: Week)
    requires IsWeek(w)
    requires forall d: Day :: w[d] == if d == Mon || d == Sat then P else if d == Wed then H else A
    ensures w == map[Mon := P, Tue := A, Wed := H, Thu := A, Fri := A, Sat := P, Sun := A]
  {
    var expected := map[Mon := P, Tue := A, Wed := H, Thu := A, Fri := A, Sat := P, Sun := A];
    forall d: Day
      ensures w[d] == expected[d]
    {
      match d
      case Mon => case Tue => case Wed => case Thu => case Fri => case Sat => case Sun =>
    }
    WeekEquality(w, expected);
  }

  lemma ToRangeMessageWeek(w: Week)
    requires IsWeek(w)
    requires forall d: Day :: w[d] == if d == Wed then H else if d == Sun then A else P
    ensures w == map[Mon := P, Tue := P, Wed := H, Thu := P, Fri := P, Sat := P, Sun := A]
  {
    var expected := map[Mon := P, Tue := P, Wed := H, Thu := P, Fri := P, Sat := P, Sun := A];
    forall d: Day
      ensures w[d] == expected[d]
    {
      match d
      case Mon => case Tue => case Wed => case Thu => case Fri => case Sat => case Sun =>
    }
    WeekEquality(w, expected);
  }
}

/**
 * Facts about short literal messages: the letters each is written in, the
 * letter pairs it lacks, and where its words stand. Each lemma takes the
 * lower-cased message and checks a few facts against its literal value.
 */
module MessageFacts {
  import opened Ascii
  import opened TextMatch

  /** "Mon–Sat present", lower-cased, with an en dash. */
  const DASH_RANGE := "mon–sat present"
  const DASH_RANGE_LETTERS := "mon–satpre "

  lemma DashRangeLetters(msg: string)
    requires msg == Lower("Mon–" + "Sat present")
    ensures DrawnFrom(msg, DASH_RANGE_LETTERS) && NoPair(msg, 't', 'o') && NoPair(msg, 'o', 't')
  {
    assert msg == DASH_RANGE;
    DashRangeAlphabet();
  }

  lemma DashRangeAlphabet()
    ensures DrawnFrom(DASH_RANGE, DASH_RANGE_LETTERS)
    ensures NoPair(DASH_RANGE, 't', 'o') && NoPair(DASH_RANGE, 'o', 't')
  {
    assert DrawnFrom(DASH_RANGE, DASH_RANGE_LETTERS);
  }

  lemma DashRangeWords(msg: string)
    requires msg == Lower("Mon–" + "Sat present")
    ensures '\n' !in msg && OccursAt(msg, 0, "mon") && OccursAt(msg, 4, "sat") && OccursAt(msg, 8, "present")
  {
    assert msg == DASH_RANGE;
    assert OccursAt(DASH_RANGE, 0, "mon") && OccursAt(DASH_RANGE, 4, "sat") && OccursAt(DASH_RANGE, 8, "present");
  }

  /** "Wed half day", lower-cased. */
  const WED_HALF := "wed half day"
  const WED_HALF_LETTERS := "wedhalfy "

  lemma WedHalfLetters(msg: string)
    requires msg == Lower("Wed " + "half day")
    ensures DrawnFrom(msg, WED_HALF_LETTERS)
  {
    assert msg == WED_HALF;
    assert DrawnFrom(WED_HALF, WED_HALF_LETTERS);
  }

  lemma WedHalfWords(msg: string)
    requires msg == Lower("Wed " + "half day")
    ensures '\n' !in msg && OccursAt(msg, 0, "wed") && OccursAt(msg, 4, "half")
  {
    assert msg == WED_HALF;
    assert OccursAt(WED_HALF, 0, "wed") && OccursAt(WED_HALF, 4, "half");
  }

  /** "OT 3 hours", lower-cased. */
  const OT_HOURS_MSG := "ot 3 hours"
  const OT_HOURS_LETTERS := "ot 3hurs"

  lemma OtHoursLetters(msg: string)
    requires msg == Lower("OT " + "3 hours")
    ensures DrawnFrom(msg, OT_HOURS_LETTERS) && NoPair(msg, 't', 'h')
  {
    assert msg == OT_HOURS_MSG;
    assert DrawnFrom(OT_HOURS_MSG, OT_HOURS_LETTERS) && NoPair(OT_HOURS_MSG, 't', 'h');
  }

  lemma OtHoursWords(msg: string)
    requires msg == Lower("OT " + "3 hours")
    ensures OccursAt(msg, 0, "ot") && SpaceEnd(msg, 2) == 3 && DigitEnd(msg, 3) == 4 && msg[4] == ' '
    ensures msg[3..4] == "3" && DigitsValue(msg[3..4]) == 3
  {
    assert msg == OT_HOURS_MSG;
    assert OccursAt(OT_HOURS_MSG, 0, "ot");
    assert OT_HOURS_MSG[3..4] == "3" && "3"[..0] == "";
  }

  /** "advance 500", lower-cased. */
  const ADVANCE_MSG := "advance 500"
  const ADVANCE_LETTERS := "advnce 50"

  lemma AdvanceLetters(msg: string)
    requires msg == Lower("advance " + "500")
    ensures DrawnFrom(msg, ADVANCE_LETTERS)
  {
    assert msg == ADVANCE_MSG;
    assert DrawnFrom(ADVANCE_MSG, ADVANCE_LETTERS);
  }

  lemma AdvanceWords(msg: string)
    requires msg == Lower("advance " + "500")
    ensures |msg| == 11 && OccursAt(msg, 0, "advance") && SpaceEnd(msg, 7) == 8 && DigitEnd(msg, 8) == 11
  {
    assert msg == ADVANCE_MSG;
    assert OccursAt(ADVANCE_MSG, 0, "advance");
  }

  lemma AdvanceNumber(msg: string)
    requires msg == Lower("advance " + "500")
    ensures msg[8..11] == "500" && DigitsValue(msg[8..11]) == 500
  {
    assert msg == ADVANCE_MSG;
    assert ADVANCE_MSG[8..11] == "500";
    assert "500"[..2] == "50" && "50"[..1] == "5" && "5"[..0] == "";
  }

  /** "bonus 200", lower-cased. */
  const BONUS_MSG := "bonus 200"
  const BONUS_LETTERS := "bonus 20"

  lemma BonusLetters(msg: string)
    requires msg == Lower("bonus " + "200")
    ensures DrawnFrom(msg, BONUS_LETTERS) && NoPair(msg, 's', 'u') && NoPair(msg, 'o', 't')
  {
    assert msg == BONUS_MSG;
    assert DrawnFrom(BONUS_MSG, BONUS_LETTERS) && NoPair(BONUS_MSG, 's', 'u') && NoPair(BONUS_MSG, 'o', 't');
  }

  lemma BonusWords(msg: string)
    requires msg == Lower("bonus " + "200")
    ensures |msg| == 9 && OccursAt(msg, 0, "bonus") && SpaceEnd(msg, 5) == 6 && DigitEnd(msg, 6) == 9
  {
    assert msg == BONUS_MSG;
    assert OccursAt(BONUS_MSG, 0, "bonus");
  }

  lemma BonusNumber(msg: string)
    requires msg == Lower("bonus " + "200")
    ensures msg[6..9] == "200" && DigitsValue(msg[6..9]) == 200
  {
    assert msg == BONUS_MSG;
    assert BONUS_MSG[6..9] == "200";
    assert "200"[..2] == "20" && "20"[..1] == "2" && "2"[..0] == "";
  }

  /** "Mon to Sat present", lower-cased. */
  const TO_RANGE := "mon to sat present"
  const TO_RANGE_LETTERS := "montsapre "

  lemma ToRangeLetters(msg: string)
    requires msg == Lower("Mon to " + "Sat present")
    ensures DrawnFrom(msg, TO_RANGE_LETTERS) && NoPair(msg, 'o', 't')
  {
    assert msg == TO_RANGE;
    assert DrawnFrom(TO_RANGE, TO_RANGE_LETTERS) && NoPair(TO_RANGE, 'o', 't');
  }

  lemma ToRangeWords(msg: string)
    requires msg == Lower("Mon to " + "Sat present")
    ensures OccursAt(msg, 0, "mon") && OccursAt(msg, 4, "to")
  {
    assert msg == TO_RANGE;
    assert OccursAt(TO_RANGE, 0, "mon") && OccursAt(TO_RANGE, 4, "to");
  }

  lemma ToRangeMarks(msg: string)
    requires msg == Lower("Mon to " + "Sat present")
    ensures OccursAt(msg, 7, "sat") && OccursAt(msg, 11, "present")
  {
    assert msg == TO_RANGE;
    assert OccursAt(TO_RANGE, 7, "sat") && OccursAt(TO_RANGE, 11, "present");
  }

  /** "ot rate 50", lower-cased. */
  const OT_RATE_MSG := "ot rate 50"
  const OT_RATE_LETTERS := "ot rae50"

  lemma OtRateLetters(msg: string)
    requires msg == Lower("ot " + "rate 50")
    ensures DrawnFrom(msg, OT_RATE_LETTERS) && forall i | 0 < i < |msg| :: msg[i] != 'o'
  {
    assert msg == OT_RATE_MSG;
    assert DrawnFrom(OT_RATE_MSG, OT_RATE_LETTERS);
  }

  lemma OtRateWords(msg: string)
    requires msg == Lower("ot " + "rate 50")
    ensures |msg| == 10 && OccursAt(msg, 0, "ot") && SpaceEnd(msg, 2) == 3 && msg[3] == 'r'
    ensures OccursAt(msg, 3, "rate") && SpaceEnd(msg, 7) == 8 && DigitEnd(msg, 8) == 10
  {
    assert msg == OT_RATE_MSG;
    assert OccursAt(OT_RATE_MSG, 0, "ot") && OccursAt(OT_RATE_MSG, 3, "rate");
  }

  lemma OtRateNumber(msg: string)
    requires msg == Lower("ot " + "rate 50")
    ensures |msg| == 10 && msg[8..10] == "50" && DigitsValue(msg[8..10]) == 50
  {
    assert msg == OT_RATE_MSG;
    assert OT_RATE_MSG[8..10] == "50" && "50"[..1] == "5" && "5"[..0] == "";
  }

  /** "slot 2", lower-cased. */
  const SLOT_MSG := "slot 2"
  const SLOT_LETTERS := "slot 2"

  lemma SlotLetters(msg: string)
    requires msg == Lower("slot " + "2")
    ensures DrawnFrom(msg, SLOT_LETTERS)
  {
    assert msg == SLOT_MSG;
  }

  lemma SlotWords(msg: string)
    requires msg == Lower("slot " + "2")
    ensures |msg| == 6 && !OccursAt(msg, 0, "ot") && !OccursAt(msg, 1, "ot") && OccursAt(msg, 2, "ot")
    ensures SpaceEnd(msg, 4) == 5 && DigitEnd(msg, 5) == 6
    ensures msg[5..6] == "2" && DigitsValue(msg[5..6]) == 2
  {
    assert msg == SLOT_MSG;
    SlotOccurrences();
    SlotNumeral();
  }

  lemma SlotOccurrences()
    ensures !OccursAt(SLOT_MSG, 0, "ot") && !OccursAt(SLOT_MSG, 1, "ot") && OccursAt(SLOT_MSG, 2, "ot")
  {
    assert SLOT_MSG[2..4] == "ot";
  }

  lemma SlotNumeral()
    ensures SpaceEnd(SLOT_MSG, 4) == 5 && DigitEnd(SLOT_MSG, 5) == 6
    ensures SLOT_MSG[5..6] == "2" && DigitsValue(SLOT_MSG[5..6]) == 2
  {
    assert SLOT_MSG[5..6] == "2" && "2"[..0] == "";
  }

  /* ---------------- The parts of the whole placeholder text ---------------- */

  /**
   * The letter pairs that, between them, spell every day name and keyword
   * the whole placeholder text must not contain: "nd" (monday), "rd"
   * (saturday), "sd" (wednesday), "ue" (tue), "th" (thu), "su" (sun,
   * sunday), "ab" (absent) and "ra" (rate).
   */
  predicate KeepsApart(s: string) {
    NoPair(s, 'n', 'd') && NoPair(s, 'r', 'd') && NoPair(s, 's', 'd') && NoPair(s, 'u', 'e') &&
    NoPair(s, 't', 'h') && NoPair(s, 's', 'u') && NoPair(s, 'a', 'b') && NoPair(s, 'r', 'a')
  }

  /** The pairs a text lacks because it lacks one of their letters. */
  lemma NoPairNotDrawn(s: string, alphabet: string, a: char, b: char)
    requires DrawnFrom(s, alphabet) && (a !in alphabet || b !in alphabet)
    ensures NoPair(s, a, b)
  {
  }

  lemma NotDrawn(s: string, alphabet: string, c: char)
    requires DrawnFrom(s, alphabet) && c !in alphabet
    ensures c !in s
  {
  }

  lemma DashRangeRa(msg: string)
    requires msg == Lower("Mon–" + "Sat present")
    ensures NoPair(msg, 'r', 'a')
  {
    assert msg == DASH_RANGE;
  }

  lemma ToRangeRa(msg: string)
    requires msg == Lower("Mon to " + "Sat present")
    ensures NoPair(msg, 'r', 'a')
  {
    assert msg == TO_RANGE;
  }

  lemma OtHoursPairs(msg: string)
    requires msg == Lower("OT " + "3 hours")
    ensures NoPair(msg, 's', 'u') && NoPair(msg, 't', 'o')
  {
    assert msg == OT_HOURS_MSG;
  }

  lemma AdvancePairs(msg: string)
    requires msg == Lower("advance " + "500")
    ensures NoPair(msg, 'n', 'd')
  {
    assert msg == ADVANCE_MSG;
  }
}
