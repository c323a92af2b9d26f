/**
 * Millisecond time arithmetic shared by the due-date rule, the urgency
 * correction text and the countdown of the details dialog.
 */
module Clock {

  const MINUTE_MS: nat := 60 * 1000
  const HOUR_MS: nat := 60 * MINUTE_MS
  const DAY_MS: nat := 24 * HOUR_MS

  /** `Math.abs` on an integer. */
  function Abs(x: int): (r: nat)
    ensures r == x || r == -x
  {
    if x < 0 then -x else x
  }

  /** A distance split into whole days, hours and minutes. */
  datatype Span = Span(days: nat, hours: nat, minutes: nat)

  /** Multiplying by a positive number keeps the order. */
  lemma MulMono(a: int, b: int, d: int)
    requires d > 0
    ensures a >= b ==> a * d >= b * d
  {
    assert a * d - b * d == (a - b) * d;
  }

  /** Division with remainder has exactly one result. */
  lemma DivModUnique(a: int, d: int, x: int, y: int)
    requires d > 0 && a == x * d + y && 0 <= y < d
    ensures a / d == x && a % d == y
  {
    var q, r := a / d, a % d;
    assert a == q * d + r && 0 <= r < d;
    MulMono(q, x + 1, d);
    MulMono(x, q + 1, d);
    assert (x + 1) * d == x * d + d && (q + 1) * d == q * d + d;
  }

  /**
   * Splitting by a large unit `n * unit` and then by `unit` is the same
   * as splitting by `unit` directly: the middle digit is below `n` and the
   * remainder is `a % unit`.
   */
  lemma SplitFloor(a: nat, unit: nat, n: nat)
    requires unit > 0 && n > 0
    ensures var big := a / (n * unit);
            var mid := (a % (n * unit)) / unit;
            && mid < n
            && a == big * (n * unit) + mid * unit + a % unit
            && (a % (n * unit)) % unit == a % unit
  {
    var big := a / (n * unit);
    var rest := a % (n * unit);
    var mid := rest / unit;
    var low := rest % unit;
    assert rest == mid * unit + low;
    MulMono(mid, n, unit);
    assert a == (big * n + mid) * unit + low by {
      assert big * (n * unit) == (big * n) * unit;
      assert (big * n + mid) * unit == (big * n) * unit + mid * unit;
    }
    DivModUnique(a, unit, big * n + mid, low);
  }

  /**
   * `Math.floor(abs / day)`, `Math.floor((abs % day) / hour)` and
   * `Math.floor((abs % hour) / minute)` on a non-negative distance: the
   * parts are bounded and together they account for `abs` to within one
   * minute (and to within one hour without the minutes).
   */
  function Decompose(abs: nat): (s: Span)
    ensures s.hours < 24 && s.minutes < 60
    ensures s.days > 0 <==> abs >= DAY_MS
    ensures s.days * DAY_MS + s.hours * HOUR_MS <= abs < s.days * DAY_MS + (s.hours + 1) * HOUR_MS
    ensures s.days * DAY_MS + s.hours * HOUR_MS + s.minutes * MINUTE_MS <= abs
    ensures abs < s.days * DAY_MS + s.hours * HOUR_MS + (s.minutes + 1) * MINUTE_MS
  {
    var days := abs / DAY_MS;
    var hours := (abs % DAY_MS) / HOUR_MS;
    var inHour := abs % HOUR_MS;
    var minutes := inHour / MINUTE_MS;
    SplitFloor(abs, HOUR_MS, 24);
    SplitFloor(abs, MINUTE_MS, 60);
    SplitFloor(inHour, MINUTE_MS, 60);
    assert inHour < HOUR_MS;
    assert days > 0 <==> abs >= DAY_MS by {
      if abs < DAY_MS {
        DivModUnique(abs, DAY_MS, 0, abs);
      } else {
        assert abs == days * DAY_MS + abs % DAY_MS;
      }
    }
    Span(days, hours, minutes)
  }
}
