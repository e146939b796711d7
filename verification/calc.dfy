/**
 * The weekly salary rules: coercion of any attendance map into the seven
 * weekday keys, the default overtime rate, the pay computation and the
 * clamp of the total at zero. Money is exact `real` arithmetic.
 */
module Calc {
  import opened Wrappers
  import opened Ascii
  import opened Json

  /** An attendance mark: "P" present, "A" absent, "H" half day. */
  datatype Status = P | A | H

  /** The one-letter text of a mark, as stored in the attendance dictionaries. */
  function Code(st: Status): string {
    match st
    case P => "P"
    case A => "A"
    case H => "H"
  }

  /** The seven weekdays, Monday first. */
  datatype Day = Mon | Tue | Wed | Thu | Fri | Sat | Sun

  /** The dictionary key a weekday is stored under. */
  function Key(d: Day): string {
    match d
    case Mon => "mon"
    case Tue => "tue"
    case Wed => "wed"
    case Thu => "thu"
    case Fri => "fri"
    case Sat => "sat"
    case Sun => "sun"
  }

  /** `DAY_KEYS`: the weekdays in the order the source iterates them. */
  const DAY_KEYS: seq<Day> := [Mon, Tue, Wed, Thu, Fri, Sat, Sun]

  /** A normalized attendance record: a mark for each weekday key. */
  type Week = map<Day, Status>

  predicate IsWeek(w: Week) {
    forall d: Day :: d in w
  }

  /**
   * The mark that `str(v).upper().strip()` names when it is "P", "A" or "H",
   * and "A" otherwise. Only a string can name a mark: `str()` of `None`, of a
   * boolean, of a number or of a container is "None", "True", "False", a
   * numeral or a bracketed text, and none of those is a single letter P, A or H.
   */
  function StatusOf(v: Value): Status
  {
    match v
    case Str(s) =>
      var u := Strip(Upper(s));
      if u == "P" then P else if u == "H" then H else A
    case _ => A
  }

  /**
   * A mark other than "A" is read only from a string whose upper-cased,
   * stripped text is its letter, and a string whose text is one of the three
   * letters gives that mark.
   */
  lemma StatusOfMeans(v: Value)
    ensures StatusOf(v) != A ==> v.Str? && Strip(Upper(v.s)) == Code(StatusOf(v))
    ensures v.Str? && Strip(Upper(v.s)) in {"P", "A", "H"} ==> Code(StatusOf(v)) == Strip(Upper(v.s))
  {
  }

  /** `days.get(key, "A")` */
  function Lookup(days: map<string, Value>, d: Day): Value {
    Get(days, Key(d), Str("A"))
  }

  /**
   * The record `normalize_days(days)` returns: the seven weekday keys and no
   * other, each holding the mark its input value names, "A" for a missing key
   * or a `None` map.
   */
  function NormalWeek(days: Option<map<string, Value>>): (w: Week)
    ensures IsWeek(w)
  {
    MarkWeek(MarkIn(days.GetOr(map[])))
  }

  /** The mark each weekday reads from `days`. */
  function MarkIn(days: map<string, Value>): Day -> Status {
    d => StatusOf(Lookup(days, d))
  }

  /** The record holding, under each weekday, the mark `mark` gives it. */
  function MarkWeek(mark: Day -> Status): (w: Week)
    ensures IsWeek(w)
    ensures forall d: Day :: w[d] == mark(d)
  {
    map d: Day :: mark(d)
  }

  /**
   * Each weekday of the normalized record holds the mark of the input's value
   * under its key, and "A" when the map is `None` or lacks the key.
   */
  lemma NormalWeekMeans(days: Option<map<string, Value>>, d: Day)
    ensures days.None? || Key(d) !in days.value ==> NormalWeek(days)[d] == A
    ensures days.Some? && Key(d) in days.value ==> NormalWeek(days)[d] == StatusOf(days.value[Key(d)])
  {
    if days.None? || Key(d) !in days.value {
      NormalWeekMissing(days, d);
    } else {
      NormalWeekFound(days.value, d);
    }
  }

  lemma NormalWeekMissing(days: Option<map<string, Value>>, d: Day)
    requires days.None? || Key(d) !in days.value
    ensures NormalWeek(days)[d] == A
  {
    NormalWeekAt(days, d);
    assert Lookup(days.GetOr(map[]), d) == Str(Code(A));
    StatusOfCode(A);
  }

  lemma NormalWeekFound(days: map<string, Value>, d: Day)
    requires Key(d) in days
    ensures NormalWeek(Some(days))[d] == StatusOf(days[Key(d)])
  {
    NormalWeekAt(Some(days), d);
  }

  /** Each weekday of the normalized record holds the mark of the value `days.get` finds. */
  lemma NormalWeekAt(days: Option<map<string, Value>>, d: Day)
    ensures NormalWeek(days)[d] == StatusOf(Lookup(days.GetOr(map[]), d))
  {
  }

  /**
   * `normalize_days`: fills a fresh dictionary one weekday key at a time
   * with the mark of the value found under that key.
   */
  method NormalizeDays(days: Option<map<string, Value>>) returns (out: Week)
    ensures out == NormalWeek(days)
  {
    out := FillWeek(MarkIn(days.GetOr(map[])));
  }

  /**
   * The loop of `normalize_days`: walks `DAY_KEYS` in order and stores
   * under each weekday the mark `mark` gives it.
   */
  method FillWeek(mark: Day -> Status) returns (out: Week)
    ensures out == MarkWeek(mark)
  {
    out := map[];
    for i := 0 to |DAY_KEYS|
      invariant forall d: Day :: IndexOfDay(d) < i ==> d in out
      invariant forall d | d in out :: out[d] == mark(d)
    {
      var d := DAY_KEYS[i];
      out := out[d := mark(d)];
    }
  }

  /** The position of a weekday in `DAY_KEYS`. */
  function IndexOfDay(d: Day): (i: nat)
    ensures i < |DAY_KEYS| && DAY_KEYS[i] == d
  {
    match d
    case Mon => 0
    case Tue => 1
    case Wed => 2
    case Thu => 3
    case Fri => 4
    case Sat => 5
    case Sun => 6
  }

  /** The weekday keys are distinct, and every weekday is one of them. */
  lemma DayKeysDistinct()
    ensures forall i, j | 0 <= i < j < |DAY_KEYS| :: DAY_KEYS[i] != DAY_KEYS[j]
    ensures forall d: Day :: d in DAY_KEYS
  {
    forall d: Day
      ensures d in DAY_KEYS
    {
      assert DAY_KEYS[IndexOfDay(d)] == d;
    }
  }

  /** Two records that agree on every weekday are the same record. */
  lemma WeekEquality(a: Week, b: Week)
    requires IsWeek(a) && IsWeek(b)
    requires forall d: Day :: a[d] == b[d]
    ensures a == b
  {
  }

  /** The untyped map a normalized record is stored as: each mark as its letter, under the day's key. */
  function Encode(w: Week): (m: map<string, Value>)
    requires IsWeek(w)
    ensures forall d: Day :: Key(d) in m && m[Key(d)] == Str(Code(w[d]))
  {
    map["mon" := Str(Code(w[Mon])), "tue" := Str(Code(w[Tue])), "wed" := Str(Code(w[Wed])),
        "thu" := Str(Code(w[Thu])), "fri" := Str(Code(w[Fri])), "sat" := Str(Code(w[Sat])),
        "sun" := Str(Code(w[Sun]))]
  }

  /** The letter of a mark reads back as that mark. */
  lemma StatusOfCode(st: Status)
    ensures StatusOf(Str(Code(st))) == st
  {
    var c := Code(st);
    UpperKeeps(c);
    StripKeeps(c);
    assert Strip(Upper(c)) == c;
  }

  /** A normalized record, stored as letters and normalized again, comes back unchanged. */
  lemma NormalWeekOfEncoded(w: Week)
    requires IsWeek(w)
    ensures NormalWeek(Some(Encode(w))) == w
  {
    EncodedWeek(Encode(w), w);
  }

  /** A map holding each weekday's letter under its key normalizes back to the week. */
  lemma EncodedWeek(m: map<string, Value>, w: Week)
    requires IsWeek(w) && forall d: Day :: Key(d) in m && m[Key(d)] == Str(Code(w[d]))
    ensures NormalWeek(Some(m)) == w
  {
    forall d: Day
      ensures NormalWeek(Some(m))[d] == w[d]
    {
      EncodedDay(m, w, d);
    }
    WeekEquality(NormalWeek(Some(m)), w);
  }

  /** A weekday stored as its mark's letter normalizes back to that mark. */
  lemma EncodedDay(m: map<string, Value>, w: Week, d: Day)
    requires IsWeek(w) && Key(d) in m && m[Key(d)] == Str(Code(w[d]))
    ensures NormalWeek(Some(m))[d] == w[d]
  {
    NormalWeekMeans(Some(m), d);
    StatusOfCode(w[d]);
  }

  /** Normalizing an already-normalized record gives it back unchanged. */
  lemma NormalWeekIdempotent(days: Option<map<string, Value>>)
    ensures NormalWeek(Some(Encode(NormalWeek(days)))) == NormalWeek(days)
  {
    NormalWeekOfEncoded(NormalWeek(days));
  }

  /** Surrounding spaces and lower case are accepted. */
  lemma StatusOfPadded()
    ensures StatusOf(Str(" p ")) == P
  {
    assert Upper(" p ") == " P ";
    assert " P "[1..] == "P ";
    assert "P "[..1] == "P";
    assert Strip(" P ") == "P";
  }

  lemma StatusOfLowerCase()
    ensures StatusOf(Str("h")) == H
  {
    assert Upper("h") == Upper(Code(H)) by {
      UpperKeeps(Code(H));
    }
    StatusOfCode(H);
  }

  /** A word other than the three letters, and a value that is not a string, are absent. */
  lemma StatusOfOtherValues()
    ensures StatusOf(Str("present")) == A
    ensures StatusOf(Num(1.0)) == A
  {
    PresentText();
  }

  /** The word "present" upper-cases and strips to "PRESENT", which is not a mark's letter. */
  lemma PresentText()
    ensures Strip(Upper("present")) == "PRESENT"
  {
    assert Upper("present") == "PRESENT";
    StripKeeps("PRESENT");
  }

  /** How many of `keys` hold mark `st` in `w`. */
  function CountIn(w: Week, keys: seq<Day>, st: Status): (n: nat)
    requires forall k | k in keys :: k in w
    ensures n <= |keys|
  {
    if keys == [] then 0
    else (if w[keys[0]] == st then 1 else 0) + CountIn(w, keys[1..], st)
  }

  /** Every key is counted under exactly one of the three marks. */
  lemma {:induction false} CountsPartition(w: Week, keys: seq<Day>)
    requires forall k | k in keys :: k in w
    ensures CountIn(w, keys, P) + CountIn(w, keys, H) + CountIn(w, keys, A) == |keys|
  {
    if keys != [] {
      CountsPartition(w, keys[1..]);
    }
  }

  /** An overtime-rate argument: `None`, the blank string, or a number. */
  datatype RateInput = Unset | Blank | Given(perHour: real)

  /** The dictionary `calc_weekly_salary` returns. */
  datatype CalcResult = CalcResult(
    days: Week,
    presentDays: nat,
    halfDays: nat,
    base: real,
    overtime: real,
    otRate: real,
    bonus: real,
    deduction: real,
    total: real)

  /** `float(x or 0.0)`: a missing or zero amount is 0.0. */
  function OrZero(x: Option<real>): real {
    x.GetOr(0.0)
  }

  /**
   * The overtime rate in force: the supplied rate when there is one (zero
   * included), otherwise the daily rate spread over an 8-hour day.
   */
  function EffectiveOtRate(rate: real, otRate: RateInput): (r: real)
    ensures otRate.Given? ==> r == otRate.perHour
    ensures !otRate.Given? ==> 8.0 * r == rate
  {
    if otRate.Given? then otRate.perHour
    else if rate != 0.0 then rate / 8.0
    else 0.0
  }

  /** Base pay: a full daily rate per present day and half of it per half day. */
  function BasePay(present: nat, half: nat, rate: real): (r: real)
    ensures r == (present as real + 0.5 * half as real) * rate
  {
    PayDistributes(present as real, half as real, rate);
    (present as real * rate) + (half as real * 0.5 * rate)
  }

  /** `max(0.0, x)` */
  function ClampAtZero(x: real): (r: real)
    ensures r >= 0.0
    ensures x >= 0.0 ==> r == x
    ensures x < 0.0 ==> r == 0.0
  {
    if x >= 0.0 then x else 0.0
  }

  /**
   * The breakdown of a normalized week: the counts of present and half days,
   * the pay they earn, the overtime at the effective rate, and the total
   * clamped at zero.
   */
  function Breakdown(d: Week, rate: real, otHours: real, otRate: RateInput, bonus: real, deduction: real): (r: CalcResult)
    requires IsWeek(d)
    ensures r.days == d
    ensures r.presentDays + r.halfDays <= 7
    ensures r.base == BasePay(r.presentDays, r.halfDays, rate)
    ensures r.otRate == EffectiveOtRate(rate, otRate)
    ensures r.overtime == otHours * r.otRate
    ensures r.bonus == bonus && r.deduction == deduction
    ensures r.total >= 0.0
    ensures r.base + r.overtime + bonus - deduction >= 0.0 ==> r.total == r.base + r.overtime + bonus - deduction
    ensures r.base + r.overtime + bonus - deduction < 0.0 ==> r.total == 0.0
  {
    WeekHasDayKeys(d);
    CountsPartition(d, DAY_KEYS);
    var present := CountIn(d, DAY_KEYS, P);
    var half := CountIn(d, DAY_KEYS, H);
    var effective := EffectiveOtRate(rate, otRate);
    var base := BasePay(present, half, rate);
    var overtime := otHours * effective;
    CalcResult(d, present, half, base, overtime, effective, bonus, deduction,
               ClampAtZero(base + overtime + bonus - deduction))
  }

  /**
   * `calc_weekly_salary`: a missing or zero daily rate, overtime, bonus or
   * deduction counts as 0.0, and the attendance map is normalized first.
   */
  function CalcWeeklySalary(
    dailyRate: Option<real>,
    days: Option<map<string, Value>>,
    otHours: Option<real>,
    otRate: RateInput,
    bonus: Option<real>,
    deduction: Option<real>): (r: CalcResult)
    ensures r.days == NormalWeek(days)
    ensures r.presentDays + r.halfDays <= 7
    ensures r.total >= 0.0
    ensures r.bonus == OrZero(bonus) && r.deduction == OrZero(deduction)
  {
    Breakdown(NormalWeek(days), OrZero(dailyRate), OrZero(otHours), otRate, OrZero(bonus), OrZero(deduction))
  }

  lemma WeekHasDayKeys(w: Week)
    requires IsWeek(w)
    ensures forall k | k in DAY_KEYS :: k in w
  {
  }

  lemma PayDistributes(present: real, half: real, rate: real)
    ensures (present * rate) + (half * 0.5 * rate) == (present + 0.5 * half) * rate
  {
  }

  /** The presentDays and halfDays fields count the P and H marks of the week. */
  lemma CountsOfBreakdown(d: Week, rate: real, otHours: real, otRate: RateInput, bonus: real, deduction: real)
    requires IsWeek(d)
    ensures forall k | k in DAY_KEYS :: k in d
    ensures var r := Breakdown(d, rate, otHours, otRate, bonus, deduction);
            r.presentDays == CountIn(d, DAY_KEYS, P) && r.halfDays == CountIn(d, DAY_KEYS, H)
  {
    WeekHasDayKeys(d);
  }

  /** A week with no present or half day counts zero of each. */
  lemma {:induction false} CountAllAbsent(w: Week, keys: seq<Day>, st: Status)
    requires forall k | k in keys :: k in w && w[k] == A
    requires st != A
    ensures CountIn(w, keys, st) == 0
  {
    if keys != [] {
      CountAllAbsent(w, keys[1..], st);
    }
  }

  /** With no present or half day, there is no base pay, and no overtime without overtime hours. */
  lemma AllAbsentPay(w: Week, rate: real, deduction: real)
    requires IsWeek(w)
    requires forall d: Day :: w[d] == A
    ensures var r := Breakdown(w, rate, 0.0, Unset, 0.0, deduction);
            r.presentDays == 0 && r.halfDays == 0 && r.base == 0.0 && r.overtime == 0.0
            && r.total == ClampAtZero(-deduction)
  {
    WeekHasDayKeys(w);
    CountAllAbsent(w, DAY_KEYS, P);
    CountAllAbsent(w, DAY_KEYS, H);
    CountsOfBreakdown(w, rate, 0.0, Unset, 0.0, deduction);
  }

  /** `{k: "A" for k in DAY_KEYS}`: the record with every weekday absent. */
  function AllAbsent(): (w: Week)
    ensures IsWeek(w)
    ensures forall d: Day :: w[d] == A
  {
    DayKeysDistinct();
    map d | d in DAY_KEYS :: A
  }

  /** A `None` attendance map normalizes to all absent. */
  lemma NormalWeekOfNone()
    ensures forall d: Day :: NormalWeek(None)[d] == A
    ensures NormalWeek(None) == AllAbsent()
  {
    forall d: Day
      ensures NormalWeek(None)[d] == A
    {
      NormalWeekMeans(None, d);
    }
  }

  /** With no attendance at all and a deduction of 500, the total is clamped to 0. */
  lemma AllAbsentWithDeduction(dailyRate: Option<real>)
    ensures var r := CalcWeeklySalary(dailyRate, None, None, Unset, None, Some(500.0));
            r.presentDays == 0 && r.halfDays == 0 && r.base == 0.0 && r.overtime == 0.0 && r.total == 0.0
  {
    NormalWeekOfNone();
    AllAbsentPay(NormalWeek(None), OrZero(dailyRate), 500.0);
  }

  const EXAMPLE_DAYS: map<string, Value> :=
    map["mon" := Str("P"), "tue" := Str("P"), "wed" := Str("P"), "thu" := Str("P"),
        "fri" := Str("P"), "sat" := Str("H"), "sun" := Str("A")]

  const EXAMPLE_WEEK: Week :=
    map[Mon := P, Tue := P, Wed := P, Thu := P, Fri := P, Sat := H, Sun := A]

  lemma ExampleWeekNormalized()
    ensures IsWeek(EXAMPLE_WEEK)
    ensures NormalWeek(Some(EXAMPLE_DAYS)) == EXAMPLE_WEEK
  {
    forall d: Day
      ensures d in EXAMPLE_WEEK
    {
      match d
      case Mon => case Tue => case Wed => case Thu => case Fri => case Sat => case Sun =>
    }
    assert EXAMPLE_DAYS == Encode(EXAMPLE_WEEK);
    NormalWeekOfEncoded(EXAMPLE_WEEK);
  }

  lemma ExampleWeekCounts()
    ensures CountIn(EXAMPLE_WEEK, DAY_KEYS, P) == 5
    ensures CountIn(EXAMPLE_WEEK, DAY_KEYS, H) == 1
  {
    var w := EXAMPLE_WEEK;
    ExampleWeekEndCounts();
    assert DAY_KEYS[2..][1..] == DAY_KEYS[3..];
    assert CountIn(w, DAY_KEYS[2..], P) == 3 && CountIn(w, DAY_KEYS[2..], H) == 1;
    assert DAY_KEYS[1..][1..] == DAY_KEYS[2..];
    assert CountIn(w, DAY_KEYS[1..], P) == 4 && CountIn(w, DAY_KEYS[1..], H) == 1;
  }

  /** The last four days of the example week: two present, one half day, one absent. */
  lemma ExampleWeekEndCounts()
    ensures CountIn(EXAMPLE_WEEK, DAY_KEYS[3..], P) == 2
    ensures CountIn(EXAMPLE_WEEK, DAY_KEYS[3..], H) == 1
  {
    var w := EXAMPLE_WEEK;
    assert DAY_KEYS[6..][1..] == [];
    assert CountIn(w, DAY_KEYS[6..], P) == 0 && CountIn(w, DAY_KEYS[6..], H) == 0;
    assert DAY_KEYS[5..][1..] == DAY_KEYS[6..];
    assert CountIn(w, DAY_KEYS[5..], P) == 0 && CountIn(w, DAY_KEYS[5..], H) == 1;
    assert DAY_KEYS[4..][1..] == DAY_KEYS[5..];
    assert CountIn(w, DAY_KEYS[4..], P) == 1 && CountIn(w, DAY_KEYS[4..], H) == 1;
    assert DAY_KEYS[3..][1..] == DAY_KEYS[4..];
  }

  /**
   * Daily rate 700, five present days, one half day, one absent day, 3 hours
   * of overtime at the default rate and a bonus of 200: base 3850, overtime
   * 262.5, total 4312.5; the result echoes the normalized days, the bonus and
   * the deduction.
   */
  lemma SalaryWorkedExample()
    ensures var r := CalcWeeklySalary(Some(700.0), Some(EXAMPLE_DAYS), Some(3.0), Unset, Some(200.0), None);
            && r.days == EXAMPLE_WEEK
            && r.presentDays == 5 && r.halfDays == 1
            && r.base == 3850.0 && r.otRate == 87.5 && r.overtime == 262.5
            && r.bonus == 200.0 && r.deduction == 0.0
            && r.total == 4312.5
  {
    ExampleWeekNormalized();
    ExampleWeekCounts();
    var r := Breakdown(EXAMPLE_WEEK, 700.0, 3.0, Unset, 200.0, 0.0);
    CountsOfBreakdown(EXAMPLE_WEEK, 700.0, 3.0, Unset, 200.0, 0.0);
    assert r.presentDays == 5 && r.halfDays == 1;
  }

  /** A daily rate of 700 and no overtime rate gives 87.5 per overtime hour. */
  lemma DefaultOtRateExample()
    ensures EffectiveOtRate(700.0, Unset) == 87.5
    ensures EffectiveOtRate(700.0, Blank) == 87.5
    ensures EffectiveOtRate(700.0, Given(0.0)) == 0.0
  {
  }
}
