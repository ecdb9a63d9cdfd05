/** How a numeric command-line option (`-t` time span, `-w` thumbnail width)
    replaces its default. */
module Options {
  import opened Outcomes

  const DefaultTimespan: int := 10
  const DefaultThumbWidth: int := 120
  /** Thumbnails per sprite row; not an option, a fixed parameter. */
  const SpriteWidth: int := 10

  /** The guard as the source writes it: the option wins whenever it is given
      and its integer value is not zero, negative values included. */
  function OverrideAsWritten(opt: Option<int>, default: int): (r: int)
    ensures r == default || (opt.Some? && r == opt.value && r != 0)
    ensures opt.Some? && opt.value != 0 ==> r == opt.value
  {
    if opt.Some? && opt.value != 0 then opt.value else default
  }

  /** A negative time span passes the source's guard: `-t -5` sets the
      interval between thumbnails to minus five seconds. */
  lemma NegativeTimespanAccepted()
    ensures OverrideAsWritten(Some(-5), DefaultTimespan) == -5 < 0
  {
  }

  /** The guard as intended: only a positive value replaces the default, so a
      positive default stays positive. */
  function Override(opt: Option<int>, default: int): (r: int)
    requires default > 0
    ensures r > 0
    ensures r == default || opt == Some(r)
    ensures opt.Some? && opt.value > 0 ==> r == opt.value
  {
    if opt.Some? && opt.value > 0 then opt.value else default
  }

  /** The correction changes nothing for an absent, zero or positive option. */
  lemma OverrideAgreesOnNonNegative(opt: Option<int>, default: int)
    requires default > 0
    requires opt.Some? ==> opt.value >= 0
    ensures Override(opt, default) == OverrideAsWritten(opt, default)
  {
  }
}
