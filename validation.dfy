/**
 * The reading validator `validate(temp, hum)`: an ordered list of problems,
 * the temperature's (if any) before the humidity's, and `ok` iff there are none.
 */
module Validation {
  import opened Wrappers

  /**
   * A raw message field: `text` is how the program prints it (`str(raw)`) and
   * `number` is the outcome of the numeric coercion `float(raw)`, absent when
   * it raises. The coercion itself is taken as given; `_to_float(raw)` is `number`.
   */
  datatype RawField = RawField(text: string, number: Option<real>)

  /** The pair `(ok, problems)` that `validate` returns. */
  datatype Verdict = Verdict(ok: bool, problems: seq<string>)

  const DeadSensor: real := -999.0
  const TemperatureLow: real := -50.0
  const TemperatureHigh: real := 60.0
  const HumidityLow: real := 0.0
  const HumidityHigh: real := 100.0

  /**
   * The temperature test: the dead-sensor sentinel or outside the plausible
   * range. The sentinel lies below the range, so its test never decides.
   */
  function TemperatureRejected(t: real): (bad: bool)
    ensures bad <==> !(TemperatureLow <= t <= TemperatureHigh)
  {
    t == DeadSensor || t < TemperatureLow || t > TemperatureHigh
  }

  function HumidityRejected(h: real): bool
  {
    h < HumidityLow || h > HumidityHigh
  }

  /** The problems `validate` reports for the temperature field. */
  function TemperatureProblems(temp: RawField, show: real -> string): (ps: seq<string>)
    ensures |ps| <= 1
    ensures temp.number.None? ==> ps == ["temperature not a number: " + temp.text]
    ensures temp.number.Some? ==> (ps == [] <==> TemperatureLow <= temp.number.value <= TemperatureHigh)
    ensures temp.number.Some? && ps != [] ==> ps == ["invalid temperature " + show(temp.number.value)]
  {
    match temp.number
    case None => ["temperature not a number: " + temp.text]
    case Some(t) => if TemperatureRejected(t) then ["invalid temperature " + show(t)] else []
  }

  /** The problems `validate` reports for the humidity field. */
  function HumidityProblems(hum: RawField, show: real -> string): (ps: seq<string>)
    ensures |ps| <= 1
    ensures hum.number.None? ==> ps == ["humidity not a number: " + hum.text]
    ensures hum.number.Some? ==> (ps == [] <==> HumidityLow <= hum.number.value <= HumidityHigh)
    ensures hum.number.Some? && ps != [] ==> ps == ["invalid humidity " + show(hum.number.value)]
  {
    match hum.number
    case None => ["humidity not a number: " + hum.text]
    case Some(h) => if HumidityRejected(h) then ["invalid humidity " + show(h)] else []
  }

  /** Both fields coerce and both values lie in their closed ranges. */
  predicate Acceptable(temp: RawField, hum: RawField)
  {
    && temp.number.Some? && TemperatureLow <= temp.number.value <= TemperatureHigh
    && hum.number.Some? && HumidityLow <= hum.number.value <= HumidityHigh
  }

  /**
   * `validate`: the two fields are checked independently, temperature first.
   * `show` renders a float as the program's f-string does.
   */
  function Validate(temp: RawField, hum: RawField, show: real -> string): (r: Verdict)
    ensures r.ok <==> r.problems == []
    ensures r.ok <==> Acceptable(temp, hum)
    ensures r.problems == TemperatureProblems(temp, show) + HumidityProblems(hum, show)
    ensures |r.problems| <= 2
  {
    var problems := TemperatureProblems(temp, show) + HumidityProblems(hum, show);
    Verdict(|problems| == 0, problems)
  }

  /** Whether a problem string is one of the temperature messages. */
  predicate IsTemperatureProblem(p: string)
  {
    "temperature not a number: " <= p || "invalid temperature " <= p
  }

  /**
   * In the list `validate` returns, the temperature messages are exactly
   * those before the humidity ones: the raw text or the rendered value can
   * never make a humidity message read as a temperature one.
   */
  lemma TemperatureProblemsFirst(temp: RawField, hum: RawField, show: real -> string)
    ensures var ps := Validate(temp, hum, show).problems;
            forall i :: 0 <= i < |ps| ==> (IsTemperatureProblem(ps[i]) <==> i < |TemperatureProblems(temp, show)|)
  {
    var tps, hps := TemperatureProblems(temp, show), HumidityProblems(hum, show);
    if tps != [] {
      if temp.number.None? {
        assert "temperature not a number: " <= tps[0];
      } else {
        assert "invalid temperature " <= tps[0];
      }
    }
    if hps != [] {
      var p := hps[0];
      if hum.number.None? {
        assert p[0] == 'h';
      } else {
        assert p[8] == 'h';
        assert "invalid temperature "[8] == 't';
      }
      assert !IsTemperatureProblem(p);
    }
  }

  /** `validate("20.5", "50")` is accepted with no problems. */
  lemma AcceptsReasonableReading(show: real -> string)
    ensures Validate(RawField("20.5", Some(20.5)), RawField("50", Some(50.0)), show) == Verdict(true, [])
  {
  }

  /** `validate("-999", "150")` reports one problem for each field. */
  lemma FlagsOutOfRangeReading(show: real -> string)
    ensures Validate(RawField("-999", Some(-999.0)), RawField("150", Some(150.0)), show)
         == Verdict(false, ["invalid temperature " + show(-999.0), "invalid humidity " + show(150.0)])
  {
  }

  /** `validate("abc", "xyz")` reports both fields as not numbers, with the raw text verbatim. */
  lemma FlagsNonNumericReading(show: real -> string)
    ensures Validate(RawField("abc", None), RawField("xyz", None), show)
         == Verdict(false, ["temperature not a number: abc", "humidity not a number: xyz"])
  {
    assert "temperature not a number: " + "abc" == "temperature not a number: abc";
    assert "humidity not a number: " + "xyz" == "humidity not a number: xyz";
  }
}
