/** Instants are .NET DateTime ticks (units of 100 ns) counted from a midnight UTC.
    A clock zone is an offset in ticks, local time minus UTC; the venue zone,
    Brasília, is a fixed UTC-3 (Brazil has had no daylight saving time since 2019). */
module Time {

  type Instant = int

  const TicksPerSecond: int := 10_000_000
  const TicksPerMinute: int := 600_000_000
  const TicksPerHour: int := 36_000_000_000
  const TicksPerDay: int := 864_000_000_000

  /** Brasília local time minus UTC. */
  const BrasiliaOffset: int := -3 * TicksPerHour

  /** Ticks elapsed since local midnight, on a clock `offset` ahead of UTC. */
  function TimeOfDay(t: Instant, offset: int): (d: int)
    ensures 0 <= d < TicksPerDay
  {
    (t + offset) % TicksPerDay
  }

  /** The local `DateTime.Hour` of instant t. */
  function Hour(t: Instant, offset: int): (h: int)
    ensures 0 <= h < 24
    ensures h * TicksPerHour <= TimeOfDay(t, offset) < (h + 1) * TicksPerHour
  {
    TimeOfDay(t, offset) / TicksPerHour
  }

  /** The local `DateTime.Minute` of instant t. */
  function Minute(t: Instant, offset: int): (m: int)
    ensures 0 <= m < 60
    ensures Hour(t, offset) * TicksPerHour + m * TicksPerMinute <= TimeOfDay(t, offset)
    ensures TimeOfDay(t, offset) < Hour(t, offset) * TicksPerHour + (m + 1) * TicksPerMinute
  {
    (TimeOfDay(t, offset) % TicksPerHour) / TicksPerMinute
  }

  /** The UTC instant of the local midnight that starts t's local day
      (`Date` on the local clock, converted back to UTC). */
  function StartOfLocalDay(t: Instant, offset: int): (d: Instant)
    ensures d <= t < d + TicksPerDay
    ensures TimeOfDay(d, offset) == 0
  {
    t - TimeOfDay(t, offset)
  }

  /** Taking the start of the day twice changes nothing. */
  lemma StartOfLocalDayIdempotent(t: Instant, offset: int)
    ensures StartOfLocalDay(StartOfLocalDay(t, offset), offset) == StartOfLocalDay(t, offset)
  {
  }

  /** The instant that shows local time x on local day `dia` of a clock
      `offset` ahead of UTC has exactly that time of day. */
  lemma {:induction false} TimeOfDayOnDay(dia: int, x: int, offset: int)
    requires 0 <= x < TicksPerDay
    ensures TimeOfDay(dia * TicksPerDay + x - offset, offset) == x
  {
    var t := dia * TicksPerDay + x;
    assert t - offset + offset == t;
    var q, r := t / TicksPerDay, t % TicksPerDay;
    assert t == q * TicksPerDay + r;
    assert (dia - q) * TicksPerDay == r - x;
  }

  /** Every instant of the local day that starts at d has d as its start of day. */
  lemma StartOfLocalDayWithin(d: Instant, t: Instant, offset: int)
    requires TimeOfDay(d, offset) == 0
    requires d <= t < d + TicksPerDay
    ensures StartOfLocalDay(t, offset) == d
  {
    var k := (d + offset) / TicksPerDay;
    assert d + offset == k * TicksPerDay;
    assert t == k * TicksPerDay + (t - d) - offset;
    TimeOfDayOnDay(k, t - d, offset);
  }
}
