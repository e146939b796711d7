/**
 * The two helpers of the Streamlit script and the step that applies a
 * parse result to the week being edited. A date is its proleptic
 * Gregorian ordinal, as Python's `date.toordinal()` gives it: 0001-01-01
 * is ordinal 1 and a Monday.
 */
module App {
  import opened Wrappers
  import opened Calc
  import opened Llm

  /** `date.max.toordinal()`, the ordinal of 9999-12-31. */
  const MAX_ORDINAL: int := 3652059

  /** The dates Python can represent. */
  type Ordinal = n: int | 1 <= n <= MAX_ORDINAL witness 1

  /** `date.weekday()`, computed from the ordinal as CPython does: Monday is 0, Sunday 6. */
  function Weekday(d: Ordinal): (w: nat)
    ensures w < 7
    ensures w == (d - 1) % 7
  {
    (d + 6) % 7
  }

  /**
   * `monday_of_week(d)`: `d - timedelta(days=d.weekday())`, the Monday on
   * or before `d`. It never leaves the representable range.
   */
  function MondayOfWeek(d: Ordinal): (m: Ordinal)
    ensures Weekday(m) == 0
    ensures m <= d && d - m <= 6
  {
    MondayOfWeekFacts(d);
    d - Weekday(d)
  }

  lemma MondayOfWeekFacts(d: Ordinal)
    ensures 1 <= d - Weekday(d)
    ensures (d - Weekday(d) + 6) % 7 == 0
  {
    var q: int := (d as int - 1) / 7;
    assert d - 1 == 7 * q + (d - 1) % 7;
    assert d - Weekday(d) == 7 * q + 1;
  }

  /** Exactly one Monday falls in the seven days ending on `d`, and it is `MondayOfWeek(d)`. */
  lemma MondayOfWeekUnique(d: Ordinal, m: Ordinal)
    requires Weekday(m) == 0 && m <= d && d - m <= 6
    ensures m == MondayOfWeek(d)
  {
    var k := MondayOfWeek(d);
    var qm: int := (m as int - 1) / 7;
    var qk: int := (k as int - 1) / 7;
    assert m as int - 1 == 7 * qm;
    assert k as int - 1 == 7 * qk;
    assert -7 < 7 * qm - 7 * qk < 7;
  }

  /** A Monday is its own week's Monday, so applying `monday_of_week` twice changes nothing more. */
  lemma MondayOfWeekIdempotent(d: Ordinal)
    ensures MondayOfWeek(MondayOfWeek(d)) == MondayOfWeek(d)
  {
    var m := MondayOfWeek(d);
    MondayOfWeekUnique(m, m);
  }

  /** 0001-01-01, ordinal 1, is a Monday; 2024-01-01, ordinal 738886, too, and the Sunday after it belongs to its week. */
  lemma MondayOfWeekExamples()
    ensures Weekday(1) == 0 && MondayOfWeek(1) == 1
    ensures Weekday(738886) == 0 && MondayOfWeek(738892) == 738886
  {
  }

  /** `default_days()`: the record with every weekday absent, one entry per key of `DAY_KEYS`. */
  function DefaultDays(): (w: Week)
    ensures IsWeek(w)
    ensures forall d: Day :: w[d] == A
    ensures |w| == |DAY_KEYS|
  {
    DayCount();
    AllAbsent()
  }

  /** A week has one entry per weekday key. */
  lemma DayCount()
    ensures |AllAbsent()| == |DAY_KEYS|
  {
    var w := AllAbsent();
    assert w.Keys == {Mon, Tue, Wed, Thu, Fri, Sat, Sun};
  }

  /**
   * The dictionary `parsed` as the overlay reads it: `None` where a key is
   * missing, so that `.get` falls back to its default. Its `days` may name
   * any of the weekdays.
   */
  datatype ParsedDict = ParsedDict(
    days: Option<map<Day, Status>>,
    otHours: Option<real>,
    otRate: Option<Option<real>>,
    bonus: Option<real>,
    deduction: Option<real>)

  /** The dictionary both parsers hand back: every key present. */
  function AsDict(p: Parsed): ParsedDict {
    ParsedDict(Some(p.days), Some(p.otHours), Some(p.otRate), Some(p.bonus), Some(p.deduction))
  }

  /** `{**base, **top}`: the second dictionary's entries win, the first one's fill in the rest. */
  function Overlay(base: map<Day, Status>, top: map<Day, Status>): (r: map<Day, Status>)
    ensures r.Keys == base.Keys + top.Keys
    ensures forall d | d in top :: r[d] == top[d]
    ensures forall d | d in base && d !in top :: r[d] == base[d]
  {
    base + top
  }

  /** A complete record laid over any week replaces it outright. */
  lemma OverlayOfWeek(base: map<Day, Status>, top: Week)
    requires IsWeek(top)
    ensures Overlay(base, top) == top
  {
    var r := Overlay(base, top);
    assert r.Keys == top.Keys;
    assert forall d | d in r :: r[d] == top[d];
  }

  /** An empty overlay keeps the week as it was. */
  lemma OverlayOfNothing(base: map<Day, Status>)
    ensures Overlay(base, map[]) == base
  {
  }

  /** The week being edited: the session-state fields the overlay writes. */
  class Draft {
    var days: map<Day, Status>
    var otHours: real
    var otRate: Option<real>
    var bonus: real
    var deduction: real

    /** Every weekday holds a mark. */
    predicate Valid()
      reads this
    {
      IsWeek(days)
    }

    /** The first visit: all absent, no overtime, no rate, no bonus, no deduction. */
    constructor ()
      ensures Valid()
      ensures days == DefaultDays()
      ensures otHours == 0.0 && otRate == None && bonus == 0.0 && deduction == 0.0
    {
      days := DefaultDays();
      otHours := 0.0;
      otRate := None;
      bonus := 0.0;
      deduction := 0.0;
    }

    /**
     * Applies a parse result: the parsed days are laid over the draft's,
     * the amounts are replaced (0.0 where the result lacks them) and so is
     * the rate (`None` where it lacks one).
     */
    method ApplyParsed(parsed: ParsedDict)
      requires Valid()
      modifies this
      ensures Valid()
      ensures days == Overlay(old(days), parsed.days.GetOr(map[]))
      ensures otHours == parsed.otHours.GetOr(0.0)
      ensures otRate == parsed.otRate.GetOr(None)
      ensures bonus == parsed.bonus.GetOr(0.0)
      ensures deduction == parsed.deduction.GetOr(0.0)
    {
      days := Overlay(days, parsed.days.GetOr(map[]));
      otHours := parsed.otHours.GetOr(0.0);
      otRate := parsed.otRate.GetOr(None);
      bonus := parsed.bonus.GetOr(0.0);
      deduction := parsed.deduction.GetOr(0.0);
    }
  }

  /** A result from either parser leaves the draft holding exactly that result. */
  method ApplyParseResult(draft: Draft, p: Parsed)
    requires draft.Valid() && IsWeek(p.days)
    modifies draft
    ensures draft.Valid()
    ensures draft.days == p.days && draft.otHours == p.otHours && draft.otRate == p.otRate
    ensures draft.bonus == p.bonus && draft.deduction == p.deduction
  {
    OverlayOfWeek(draft.days, p.days);
    draft.ApplyParsed(AsDict(p));
  }
}
