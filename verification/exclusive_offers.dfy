/** The offers section's two timers, reduced to the step each tick
    performs: the countdown that splits the time left into days, hours,
    minutes and seconds, and the rotation of the three backgrounds. Time is
    integer milliseconds; `Math.floor` of a quotient of non-negative numbers
    is integer division. */
module ExclusiveOffers {

  datatype TimeLeft = TimeLeft(days: nat, hours: nat, minutes: nat, seconds: nat)

  datatype Tick = Tick(time: TimeLeft, running: bool)

  const SecondMs := 1000
  const MinuteMs := 60 * SecondMs
  const HourMs := 60 * MinuteMs
  const DayMs := 24 * HourMs

  /** The number of background gradients. */
  const Backgrounds := 3

  const Zero := TimeLeft(0, 0, 0, 0)

  /** One countdown tick for `difference` milliseconds left: at or past the
      deadline the display is zeroed and the timer stops; otherwise each
      unit is the whole count of that unit, reduced modulo the next one. */
  function Countdown(difference: int): (r: Tick)
    ensures difference <= 0 ==> r == Tick(Zero, false)
    ensures difference > 0 ==> r.running
    ensures r.time.hours < 24 && r.time.minutes < 60 && r.time.seconds < 60
  {
    if difference <= 0 then Tick(Zero, false)
    else
      Tick(TimeLeft(difference / DayMs,
                    (difference / HourMs) % 24,
                    (difference / MinuteMs) % 60,
                    (difference / SecondMs) % 60), true)
  }

  /** The total number of whole seconds the display shows. */
  function TotalSeconds(t: TimeLeft): nat
  {
    t.days * 86400 + t.hours * 3600 + t.minutes * 60 + t.seconds
  }

  /** The four units recompose the whole seconds left: nothing is lost or
      counted twice by the split. */
  lemma {:induction false} CountdownRecomposes(difference: int)
    requires difference > 0
    ensures TotalSeconds(Countdown(difference).time) == difference / SecondMs
  {
    var s := difference / 1000;
    var m := s / 60;
    var h := m / 60;
    var d := h / 24;
    assert difference / 60000 == m;
    assert difference / 3600000 == h;
    assert difference / 86400000 == d;
    assert s == m * 60 + s % 60;
    assert m == h * 60 + m % 60;
    assert h == d * 24 + h % 24;
  }

  /** Within a minute of the deadline only seconds remain; a full day or
      more shows in the days field. */
  lemma CountdownUnits(difference: int)
    ensures 0 < difference < MinuteMs ==> Countdown(difference).time == TimeLeft(0, 0, 0, difference / 1000)
    ensures difference >= DayMs ==> Countdown(difference).time.days >= 1
  {
  }

  /** The countdown never goes up as time passes. */
  lemma CountdownMonotone(earlier: int, later: int)
    requires later <= earlier
    ensures TotalSeconds(Countdown(later).time) <= TotalSeconds(Countdown(earlier).time)
  {
    if later > 0 {
      CountdownRecomposes(later);
      CountdownRecomposes(earlier);
    } else if earlier > 0 {
      CountdownRecomposes(earlier);
    }
  }

  // ---------------------------------------------------------------------
  // The same step over exact real numbers

  /** JavaScript's `%` on non-negative numbers: what is left after taking
      out the whole multiples of m (the truncated quotient, which for
      non-negative operands is the floor). */
  function JsMod(x: real, m: real): (r: real)
    requires x >= 0.0 && m > 0.0
  {
    x - m * ((x / m).Floor as real)
  }

  lemma FloorIs(x: real, k: int)
    requires k as real <= x < k as real + 1.0
    ensures x.Floor == k
  {
  }

  lemma FractionBelowOne(r: real, u: real)
    requires 0.0 <= r < u
    ensures 0.0 <= r / u < 1.0
  {
  }

  lemma DivideSum(a: real, b: real, u: real)
    requires u > 0.0
    ensures (a * u + b) / u == a + b / u
  {
  }

  /** n / u over the reals is the integer quotient plus a fraction below 1. */
  lemma SplitQuotient(n: nat, u: nat)
    requires u > 0
    ensures n as real / u as real == (n / u) as real + (n % u) as real / u as real
    ensures 0.0 <= (n % u) as real / u as real < 1.0
  {
    assert n as real == (n / u) as real * u as real + (n % u) as real;
    DivideSum((n / u) as real, (n % u) as real, u as real);
    FractionBelowOne((n % u) as real, u as real);
  }

  /** `Math.floor((n / unit) % m)` computed over exact reals is the
      integer `(n div unit) mod m`, and `Math.floor(n / unit)` is
      `n div unit`. */
  lemma ExactStepMatchesIntegers(d: nat, unit: nat, m: nat)
    requires unit > 0 && m > 0
    ensures (d as real / unit as real).Floor == d / unit
    ensures JsMod(d as real / unit as real, m as real).Floor == (d / unit) % m
  {
    var q := d / unit;
    var k, j := q / m, q % m;
    var x := d as real / unit as real;
    var f := (d % unit) as real / unit as real;
    SplitQuotient(d, unit);
    FloorIs(x, q);
    var y := (j as real + f) / m as real;
    FractionBelowOne(j as real + f, m as real);
    assert x == k as real * m as real + (j as real + f) by {
      assert q as real == k as real * m as real + j as real;
    }
    DivideSum(k as real, j as real + f, m as real);
    assert x / m as real == k as real + y;
    FloorIs(x / m as real, k);
    assert JsMod(x, m as real) == j as real + f;
    FloorIs(j as real + f, j);
  }

  /** The source's formulas, evaluated over exact reals, give the integer
      countdown. */
  lemma CountdownMatchesExactFormulas(difference: int)
    requires difference > 0
    ensures Countdown(difference).time.days == (difference as real / DayMs as real).Floor
    ensures Countdown(difference).time.hours == JsMod(difference as real / HourMs as real, 24.0).Floor
    ensures Countdown(difference).time.minutes == JsMod(difference as real / MinuteMs as real, 60.0).Floor
    ensures Countdown(difference).time.seconds == JsMod(difference as real / SecondMs as real, 60.0).Floor
  {
    ExactStepMatchesIntegers(difference, DayMs, 1);
    ExactStepMatchesIntegers(difference, HourMs, 24);
    ExactStepMatchesIntegers(difference, MinuteMs, 60);
    ExactStepMatchesIntegers(difference, SecondMs, 60);
  }

  /** The rotation tick: the next background, wrapping after the last. */
  function NextBg(prev: nat): (r: nat)
    ensures r < Backgrounds
    ensures prev < Backgrounds - 1 ==> r == prev + 1
    ensures prev == Backgrounds - 1 ==> r == 0
  {
    (prev + 1) % Backgrounds
  }

  /** Starting from a valid index, three ticks come back to it, and no
      smaller positive number of ticks does. */
  lemma RotationPeriod(start: nat)
    requires start < Backgrounds
    ensures NextBg(NextBg(NextBg(start))) == start
    ensures NextBg(start) != start && NextBg(NextBg(start)) != start
  {
  }
}
