/** Instants, midnights and the RFC 1123 date text with numeric zone (section 5.2.14 of RFC 1123).
    Instants are nanoseconds since 1970 in UTC; calendar fields belong to the Go library and are left out. */
module Clock {
  import opened Common

  const SECOND := 1_000_000_000
  const MINUTE := 60 * SECOND
  const DAY := 1440 * MINUTE

  function Midnight(t: int): int { t - t % DAY }

  function TimeOfDay(t: int): int { t % DAY }

  predicate WholeMinute(t: int) { t % MINUTE == 0 }

  lemma {:induction false} WholeMinutes(k: int)
    ensures WholeMinute(k * MINUTE)
  {
  }

  lemma {:induction false} MidnightFacts(t: int)
    ensures Midnight(t) <= t < Midnight(t) + DAY
    ensures t == Midnight(t) + TimeOfDay(t) && 0 <= TimeOfDay(t) < DAY
    ensures Midnight(t) == t / DAY * DAY && WholeMinute(Midnight(t))
    ensures Midnight(t + DAY) == Midnight(t) + DAY
  {
    WholeMinutes(t / DAY * 1440);
  }

  /** The text of an annotation: empty, something time.Parse refuses, or a date with local wall-clock seconds and a
      zone in minutes. */
  datatype Text = Blank | Garbled | Stamp(local: int, zone: int)

  /** Division as Go does it, rounding towards zero. */
  function Quotient(a: int, b: int): int
    requires b > 0
  {
    if a >= 0 then a / b else -((-a) / b)
  }

  /** Prints an instant in a location `offset` seconds east of UTC: fractions of a second and of a zone minute are
      lost. */
  function Format(t: int, offset: int): Text {
    Stamp((t + offset * SECOND) / SECOND, Quotient(offset, 60))
  }

  function Parse(text: Text): Option<int> {
    match text
    case Stamp(local, zone) => Some((local - zone * 60) * SECOND)
    case _ => None
  }

  /** The text shows the wall clock of the location, rounded down to the second, and the whole minutes of its offset,
      rounded towards zero. */
  lemma {:induction false} FormatShows(t: int, offset: int)
    ensures Format(t, offset).Stamp?
    ensures Format(t, offset).local * SECOND <= t + offset * SECOND < (Format(t, offset).local + 1) * SECOND
    ensures if offset >= 0 then Format(t, offset).zone * 60 <= offset < (Format(t, offset).zone + 1) * 60
            else (Format(t, offset).zone - 1) * 60 < offset <= Format(t, offset).zone * 60
  {
  }

  /** The text gives back the instant exactly when the instant is a whole second and the zone a whole minute. */
  lemma {:induction false} FormatParse(t: int, offset: int)
    ensures Parse(Format(t, offset)) == Some(t) <==> t % SECOND == 0 && offset % 60 == 0
  {
    assert (t + offset * SECOND) / SECOND == t / SECOND + offset;
  }

  /** What printing loses: less than a second of the instant, and the seconds of the zone shift the result. */
  lemma {:induction false} FormatParseError(t: int, offset: int)
    ensures Parse(Format(t, offset)) == Some(t - t % SECOND + (offset - 60 * Quotient(offset, 60)) * SECOND)
    ensures -60 < offset - 60 * Quotient(offset, 60) < 60
  {
    assert (t + offset * SECOND) / SECOND == t / SECOND + offset;
  }
}
