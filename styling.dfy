/** The per-feature style choice of the vector layer (`styleFunction`), without the
    colours, which belong to the rendering library. */
module Styling {
  import opened Wrappers
  import opened Features

  /** The three keys of the `styles` table. */
  datatype Style = Nutzungsfristende | Verstorbene | Other

  /** `today - Date.parse(d) < 0`, where `None` is the `NaN` of an unparseable date:
      every comparison with `NaN` is false. */
  function DifferenceBelowZero(today: int, parsed: Option<int>): bool {
    match parsed
    case None => false
    case Some(t) => today - t < 0
  }

  /** The style of feature `f` when the clock reads `now`: a usage end strictly in
      the future comes first, an occupant second, everything else last. */
  function StyleOf(f: Feature, now: int): (s: Style)
    ensures s == Style.Nutzungsfristende <==>
              f.nutzungsfristende.Some? && f.nutzungsfristende.value.Some? &&
              f.nutzungsfristende.value.value > now
    ensures s == Style.Verstorbene <==>
              !(f.nutzungsfristende.Some? && f.nutzungsfristende.value.Some? &&
                f.nutzungsfristende.value.value > now) &&
              f.verstorbene.Some?
    ensures s == Style.Other <==>
              !(f.nutzungsfristende.Some? && f.nutzungsfristende.value.Some? &&
                f.nutzungsfristende.value.value > now) &&
              f.verstorbene.None?
  {
    if f.nutzungsfristende.Some? && DifferenceBelowZero(now, f.nutzungsfristende.value) then
      Style.Nutzungsfristende
    else if f.verstorbene.Some? then
      Style.Verstorbene
    else
      Style.Other
  }

  /** A usage end that is now, in the past, missing or unparseable does not decide
      the style: the feature is styled as if it had no usage end at all. */
  lemma NotFutureFallsThrough(f: Feature, now: int)
    requires f.nutzungsfristende.None? || f.nutzungsfristende.value.None? ||
             f.nutzungsfristende.value.value <= now
    ensures StyleOf(f, now) == StyleOf(f.(nutzungsfristende := None), now)
    ensures StyleOf(f, now) != Style.Nutzungsfristende
  {
  }

  /** A later clock never turns a feature into a usage-ending one. */
  lemma UsageEndingFadesWithTime(f: Feature, now: int, later: int)
    requires now <= later
    requires StyleOf(f, later) == Style.Nutzungsfristende
    ensures StyleOf(f, now) == Style.Nutzungsfristende
  {
  }
}
