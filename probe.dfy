/** The media duration, from the digit groups the probe's
    `Duration: HH:MM:SS.ff, start: ...` line yields. Running ffmpeg and
    matching its text are outside the model: the groups are the input. */
module Probe {
  import opened Outcomes
  import opened Text

  /** The captured groups `(\d+):(\d+):(\d+)\.\d+`; the fraction is matched
      but never read. */
  datatype ClockGroups = ClockGroups(hours: string, minutes: string, seconds: string, fraction: string)

  predicate WellFormed(g: ClockGroups)
  {
    AllDigits(g.hours) && AllDigits(g.minutes) && AllDigits(g.seconds) && AllDigits(g.fraction)
    && |g.hours| >= 1 && |g.minutes| >= 1 && |g.seconds| >= 1 && |g.fraction| >= 1
  }

  /** Whole seconds `H*3600 + M*60 + S`. */
  function ClockSeconds(hours: string, minutes: string, seconds: string): nat
    requires AllDigits(hours) && AllDigits(minutes) && AllDigits(seconds)
  {
    DecimalValue(hours) * 3600 + DecimalValue(minutes) * 60 + DecimalValue(seconds)
  }

  /** The duration the generator computes. When the line is missing the source
      reads undefined groups, which PHP turns into 0. */
  function Duration(m: Option<ClockGroups>): (d: nat)
    requires m.Some? ==> WellFormed(m.value)
    ensures m.None? ==> d == 0
  {
    match m
    case None => 0
    case Some(g) => ClockSeconds(g.hours, g.minutes, g.seconds)
  }

  /** When the probe reports minutes and seconds below 60, the duration splits
      back into the reported hours, minutes and seconds, and the fraction has
      no effect. */
  lemma DurationSplitsBack(g: ClockGroups, f: string)
    requires WellFormed(g) && AllDigits(f) && |f| >= 1
    requires DecimalValue(g.minutes) < 60 && DecimalValue(g.seconds) < 60
    ensures Duration(Some(g)) / 3600 == DecimalValue(g.hours)
    ensures (Duration(Some(g)) / 60) % 60 == DecimalValue(g.minutes)
    ensures Duration(Some(g)) % 60 == DecimalValue(g.seconds)
    ensures Duration(Some(g.(fraction := f))) == Duration(Some(g))
  {
    var h, m, s := DecimalValue(g.hours), DecimalValue(g.minutes), DecimalValue(g.seconds);
    SplitClock(h, m, s);
  }

  lemma SplitClock(h: nat, m: nat, s: nat)
    requires m < 60 && s < 60
    ensures (h * 3600 + m * 60 + s) / 3600 == h
    ensures ((h * 3600 + m * 60 + s) / 60) % 60 == m
    ensures (h * 3600 + m * 60 + s) % 60 == s
  {
    var d := h * 3600 + m * 60 + s;
    assert d == (h * 60 + m) * 60 + s;
    assert d / 60 == h * 60 + m;
    assert (h * 60 + m) % 60 == m;
    assert d == h * 3600 + (m * 60 + s) && m * 60 + s < 3600;
  }
}
