/**
 * `_ensure_schema`: the coercion of whatever object the language model
 * answered with into the parser's record shape. Weekday values get the
 * same treatment as `normalize_days`, the three amounts fall back to 0.0,
 * and the overtime rate to `None`.
 */
module Schema {
  import opened Wrappers
  import opened Json
  import opened Calc
  import opened Llm

  /**
   * `obj.get("days") or {}`: a missing or falsy value reads as the empty
   * dictionary; a truthy value that is not a dictionary has no `.get`, so
   * the coercion raises (`None` here).
   */
  function DaysIn(obj: map<string, Value>): (r: Option<map<string, Value>>)
    ensures r.None? <==> "days" in obj && Truthy(obj["days"]) && !obj["days"].Object?
    ensures r.Some? && "days" in obj && obj["days"].Object? ==> r.value == obj["days"].fields
    ensures r.Some? && !("days" in obj && obj["days"].Object?) ==> r.value == map[]
  {
    var v := Get(obj, "days", Null);
    if !Truthy(v) then Some(map[])
    else if v.Object? then Some(v.fields)
    else None
  }

  /** The inner `num(x)`: `float(x)`, and 0.0 wherever `float` raises. */
  function NumOrZero(x: Value, parseFloat: string -> Option<real>): real {
    FloatOf(x, parseFloat).GetOr(0.0)
  }

  /**
   * The overtime rate: `None`, `""` and `"null"` mean no rate; anything
   * else is passed to `float`, and a value `float` refuses means no rate too.
   */
  function RateOf(v: Value, parseFloat: string -> Option<real>): Option<real> {
    if v == Null || v == Str("") || v == Str("null") then None
    else FloatOf(v, parseFloat)
  }

  /**
   * What `_ensure_schema(obj)` returns, `None` where it raises: on an
   * answer that is not a dictionary (it has no `.get`) and on a truthy
   * `days` value that is not one.
   */
  function SchemaOf(obj: Value, parseFloat: string -> Option<real>): (r: Option<Parsed>)
    ensures r.Some? ==> obj.Object? && IsWeek(r.value.days)
  {
    match obj
    case Object(fields) =>
      (match DaysIn(fields)
       case None => None
       case Some(days) =>
         Some(Parsed(
           NormalWeek(Some(days)),
           NumOrZero(Get(fields, "otHours", Num(0.0)), parseFloat),
           RateOf(Get(fields, "otRate", Null), parseFloat),
           NumOrZero(Get(fields, "bonus", Num(0.0)), parseFloat),
           NumOrZero(Get(fields, "deduction", Num(0.0)), parseFloat))))
    case _ => None
  }

  /**
   * `_ensure_schema`: builds the `days` dictionary one weekday key at a
   * time, then reads the three amounts and the rate.
   */
  method EnsureSchema(obj: Value, parseFloat: string -> Option<real>) returns (r: Option<Parsed>)
    ensures r == SchemaOf(obj, parseFloat)
  {
    if !obj.Object? {
      return None;
    }
    var fields := obj.fields;
    var daysIn := DaysIn(fields);
    if daysIn.None? {
      return None;
    }
    var source := daysIn.value;
    var days := FillWeek(MarkIn(source));
    var otRate := RateOf(Get(fields, "otRate", Null), parseFloat);
    r := Some(Parsed(
      days,
      NumOrZero(Get(fields, "otHours", Num(0.0)), parseFloat),
      otRate,
      NumOrZero(Get(fields, "bonus", Num(0.0)), parseFloat),
      NumOrZero(Get(fields, "deduction", Num(0.0)), parseFloat)));
  }

  /* ---------------- What the coercion guarantees ---------------- */

  /** Each weekday gets the mark `normalize_days` would give it from the answer's `days`. */
  lemma SchemaDaysAsNormalized(fields: map<string, Value>, parseFloat: string -> Option<real>)
    requires "days" in fields && fields["days"].Object?
    ensures SchemaOf(Object(fields), parseFloat).Some?
    ensures SchemaOf(Object(fields), parseFloat).value.days == NormalWeek(Some(fields["days"].fields))
  {
  }

  /** A missing or falsy `days` value leaves every weekday absent. */
  lemma FalsyDaysAllAbsent(fields: map<string, Value>, parseFloat: string -> Option<real>)
    requires "days" !in fields || !Truthy(fields["days"])
    ensures SchemaOf(Object(fields), parseFloat).Some?
    ensures SchemaOf(Object(fields), parseFloat).value.days == AllAbsent()
  {
    assert DaysIn(fields) == Some(map[]);
    assert SchemaOf(Object(fields), parseFloat).value.days == NormalWeek(Some(map[]));
    EmptyDaysAllAbsent();
  }

  /** The empty dictionary normalizes like a `None` map: every weekday absent. */
  lemma EmptyDaysAllAbsent()
    ensures NormalWeek(Some(map[])) == AllAbsent()
  {
    var none: Option<map<string, Value>> := None;
    assert Some(map[]).GetOr(map[]) == none.GetOr(map[]);
    assert NormalWeek(Some(map[])) == NormalWeek(none);
    NormalWeekOfNone();
  }

  /** The coercion fails exactly on a non-dictionary answer or a truthy non-dictionary `days`. */
  lemma SchemaFails(obj: Value, parseFloat: string -> Option<real>)
    ensures SchemaOf(obj, parseFloat).None? <==>
      !obj.Object? || ("days" in obj.fields && Truthy(obj.fields["days"]) && !obj.fields["days"].Object?)
  {
  }

  /**
   * An amount is the number it holds, 0.0 when it is missing, and 0.0
   * when `float` refuses it; the same holds for `bonus` and `deduction`.
   */
  lemma AmountCoercion(fields: map<string, Value>, key: string, parseFloat: string -> Option<real>)
    ensures key !in fields ==> NumOrZero(Get(fields, key, Num(0.0)), parseFloat) == 0.0
    ensures key in fields && fields[key].Num? ==> NumOrZero(Get(fields, key, Num(0.0)), parseFloat) == fields[key].x
    ensures key in fields && FloatOf(fields[key], parseFloat).None? ==> NumOrZero(Get(fields, key, Num(0.0)), parseFloat) == 0.0
    ensures key in fields && fields[key].Str? && parseFloat(fields[key].s).Some? ==>
      NumOrZero(Get(fields, key, Num(0.0)), parseFloat) == parseFloat(fields[key].s).value
  {
  }

  /**
   * The overtime rate is absent when it is missing, `None`, `""`, `"null"`
   * or refused by `float`, and otherwise is the number `float` reads.
   */
  lemma RateCoercion(fields: map<string, Value>, parseFloat: string -> Option<real>)
    ensures "otRate" !in fields ==> RateOf(Get(fields, "otRate", Null), parseFloat) == None
    ensures "otRate" in fields && fields["otRate"] in {Null, Str(""), Str("null")} ==>
      RateOf(Get(fields, "otRate", Null), parseFloat) == None
    ensures "otRate" in fields && fields["otRate"].Num? ==>
      RateOf(Get(fields, "otRate", Null), parseFloat) == Some(fields["otRate"].x)
    ensures "otRate" in fields && fields["otRate"].Str? && fields["otRate"].s !in {"", "null"} ==>
      RateOf(Get(fields, "otRate", Null), parseFloat) == parseFloat(fields["otRate"].s)
    ensures "otRate" in fields && (fields["otRate"].Array? || fields["otRate"].Object?) ==>
      RateOf(Get(fields, "otRate", Null), parseFloat) == None
  {
  }

  /* ---------------- The record as an untyped answer ---------------- */

  /** The answer a well-behaved model sends for a record: the shape the system prompt asks for. */
  function Answer(p: Parsed): (v: Value)
    requires IsWeek(p.days)
    ensures v.Object? && "days" in v.fields && v.fields["days"] == Object(Encode(p.days))
  {
    Object(map[
      "days" := Object(Encode(p.days)),
      "otHours" := Num(p.otHours),
      "otRate" := if p.otRate.Some? then Num(p.otRate.value) else Null,
      "bonus" := Num(p.bonus),
      "deduction" := Num(p.deduction)])
  }

  /** Coercing an answer that already has the shape gives the record back, whatever `float` does to strings. */
  lemma SchemaOfAnswer(p: Parsed, parseFloat: string -> Option<real>)
    requires IsWeek(p.days)
    ensures SchemaOf(Answer(p), parseFloat) == Some(p)
  {
    AnswerDays(p);
    NormalWeekOfEncoded(p.days);
    AnswerFields(p);
  }

  /** The `days` of an answer is the stored record, and it is truthy. */
  lemma AnswerDays(p: Parsed)
    requires IsWeek(p.days)
    ensures DaysIn(Answer(p).fields) == Some(Encode(p.days))
  {
    var days := Encode(p.days);
    assert days != map[] by {
      assert Key(Mon) in days;
    }
  }

  /** The four amounts of an answer sit under their own keys. */
  lemma AnswerFields(p: Parsed)
    requires IsWeek(p.days)
    ensures Get(Answer(p).fields, "otHours", Num(0.0)) == Num(p.otHours)
    ensures Get(Answer(p).fields, "otRate", Null) == if p.otRate.Some? then Num(p.otRate.value) else Null
    ensures Get(Answer(p).fields, "bonus", Num(0.0)) == Num(p.bonus)
    ensures Get(Answer(p).fields, "deduction", Num(0.0)) == Num(p.deduction)
  {
  }

  /** Coercion is idempotent: a coerced record, sent again, comes back unchanged. */
  lemma SchemaIdempotent(obj: Value, parseFloat: string -> Option<real>)
    requires SchemaOf(obj, parseFloat).Some?
    ensures SchemaOf(Answer(SchemaOf(obj, parseFloat).value), parseFloat) == SchemaOf(obj, parseFloat)
  {
    SchemaOfAnswer(SchemaOf(obj, parseFloat).value, parseFloat);
  }

  /** The keyword parser's result passes through the coercion unchanged. */
  lemma FallbackPassesSchema(message: string, parseFloat: string -> Option<real>)
    ensures SchemaOf(Answer(Fallback(message)), parseFloat) == Some(Fallback(message))
  {
    SchemaOfAnswer(Fallback(message), parseFloat);
  }
}
