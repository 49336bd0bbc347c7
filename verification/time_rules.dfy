/** The booking-time rules of the backend (`validarHoras` and its two
    configuration values): both ends of a range must fall on the step grid,
    and the range must last at least the minimum duration. */
module TimeRules {
  import opened Wrappers
  import opened Clock
  import Arith

  /** `TIEMPO_MINIMO` and `RANGO_PASO`, in minutes. */
  datatype Config = Config(minDuration: int, step: int)

  const DefaultMinDuration := 60
  const DefaultStep := 30
  const DefaultConfig := Config(DefaultMinDuration, DefaultStep)

  /** `parseInt(v) || fallback`: a missing or unparseable value (`None`) and
      a value of 0 are both falsy and give way to the fallback. */
  function OrDefault(v: Option<int>, fallback: int): int {
    if v.Some? && v.value != 0 then v.value else fallback
  }

  /** The configuration read from the environment at start-up. */
  function ConfigFromEnv(minEnv: Option<int>, stepEnv: Option<int>): (c: Config)
    ensures c.minDuration != 0 && c.step != 0
    ensures (minEnv.None? || minEnv == Some(0)) ==> c.minDuration == DefaultMinDuration
    ensures (stepEnv.None? || stepEnv == Some(0)) ==> c.step == DefaultStep
    ensures forall v :: minEnv == Some(v) && v != 0 ==> c.minDuration == v
    ensures forall v :: stepEnv == Some(v) && v != 0 ==> c.step == v
  {
    Config(OrDefault(minEnv, DefaultMinDuration), OrDefault(stepEnv, DefaultStep))
  }

  datatype RangeError =
    | OffStep(step: int)        // "Las horas deben ser múltiplos de ... minutos."
    | TooShort(minimum: int)    // "La cita debe durar al menos ... minutos."

  datatype Verdict = Accepted | Rejected(reason: RangeError)

  /** `getMinutes() % RANGO_PASO === 0`. The minute of the hour is never
      negative, so JavaScript's remainder agrees with Dafny's for either sign
      of the step; a step of 0 yields `NaN`, which is never `=== 0`. When the
      step divides an hour, the rule is the same as being a multiple of the
      step counted from midnight. */
  predicate OnStep(cfg: Config, t: Minute)
    ensures cfg.step > 0 && 60 % cfg.step == 0 ==> (OnStep(cfg, t) <==> t % cfg.step == 0)
  {
    if cfg.step > 0 && 60 % cfg.step == 0 then
      MinuteOfHourStep(t, cfg.step);
      MinuteOfHour(t) % cfg.step == 0
    else
      cfg.step != 0 && MinuteOfHour(t) % cfg.step == 0
  }

  /** For a step dividing 60, the remainder of the minute of the hour is the
      remainder of the minutes since midnight. */
  lemma MinuteOfHourStep(t: Minute, k: int)
    requires k > 0 && 60 % k == 0
    ensures MinuteOfHour(t) % k == t % k
  {
    var q := 60 / k;
    assert 60 == k * q;
    var h := t / 60;
    var m := t % 60;
    assert t == 60 * h + m;
    assert t == k * (q * h + m / k) + m % k;
    Arith.DivModUnique(t, k, q * h + m / k, m % k);
  }

  /** `validarHoras`: the step rule is checked first, then the duration. */
  function ValidateRange(cfg: Config, start: Minute, end: Minute): (v: Verdict)
    ensures v.Accepted? ==> end - start >= cfg.minDuration
    ensures !OnStep(cfg, start) ==> v == Rejected(OffStep(cfg.step))
    ensures v.Rejected? && v.reason.TooShort? ==> v.reason.minimum == cfg.minDuration
  {
    if !OnStep(cfg, start) || !OnStep(cfg, end) then Rejected(OffStep(cfg.step))
    else if end - start < cfg.minDuration then Rejected(TooShort(cfg.minDuration))
    else Accepted
  }

  /** A range is accepted exactly when both ends are on the step grid and it
      lasts at least the minimum; an off-grid end is reported as such even
      when the range is also too short. */
  lemma ValidateRangeCases(cfg: Config, start: Minute, end: Minute)
    ensures ValidateRange(cfg, start, end).Accepted?
            <==> OnStep(cfg, start) && OnStep(cfg, end) && end - start >= cfg.minDuration
    ensures ValidateRange(cfg, start, end) == Rejected(OffStep(cfg.step))
            <==> !OnStep(cfg, start) || !OnStep(cfg, end)
    ensures ValidateRange(cfg, start, end) == Rejected(TooShort(cfg.minDuration))
            <==> OnStep(cfg, start) && OnStep(cfg, end) && end - start < cfg.minDuration
  {
  }

  /** With a positive minimum duration, an empty or reversed range is never
      accepted, so every accepted range runs forwards. */
  lemma AcceptedRangeIsForward(cfg: Config, start: Minute, end: Minute)
    requires cfg.minDuration >= 1
    ensures ValidateRange(cfg, start, end).Accepted? ==> start < end
    ensures end <= start ==> ValidateRange(cfg, start, end).Rejected?
  {
  }

  /** Under the default configuration a range is accepted exactly when both
      ends are on the half hour and it lasts at least an hour. */
  lemma DefaultRule(start: Minute, end: Minute)
    ensures ValidateRange(DefaultConfig, start, end).Accepted?
            <==> start % 30 == 0 && end % 30 == 0 && end - start >= 60
  {
  }

  /** With a step that does not divide an hour the rule is NOT "a multiple
      of the step from midnight": 01:30 is 90 = 2 * 45 minutes after
      midnight, yet its minute of the hour, 30, is off a 45-minute step. */
  lemma StepIsPerHour()
    ensures 90 % 45 == 0 && !OnStep(Config(60, 45), 90)
  {
  }
}
