/** The "time ago" arithmetic shared by the room chat and the saved-posts
    page: whole minutes, hours and days elapsed, each the floor of the
    previous one divided by 60 or 24. Timestamps are integer
    milliseconds; a positive divisor makes Dafny's `/` the floor that
    `Math.floor(a / b)` computes, negative differences included. */
module Elapsed {
  import opened JsText
  import opened Wrappers

  const MsPerMinute: int := 60000
  const MsPerHour: int := 3600000
  const MsPerDay: int := 86400000

  /** `Math.floor(diffMs / 60000)`. */
  function Minutes(diffMs: int): int {
    diffMs / MsPerMinute
  }

  /** `Math.floor(diffMins / 60)`. */
  function Hours(diffMs: int): int {
    Minutes(diffMs) / 60
  }

  /** `Math.floor(diffHours / 24)`. */
  function Days(diffMs: int): int {
    Hours(diffMs) / 24
  }

  lemma MulAtLeast(k: int, d: int)
    requires k >= 1 && d > 0
    ensures k * d >= d
  {
  }

  lemma FloorDivUnique(x: int, d: int, q: int)
    requires d > 0 && q * d <= x < q * d + d
    ensures x / d == q
  {
    var q' := x / d;
    var r' := x % d;
    assert x == q' * d + r' && 0 <= r' < d;
    if q' < q {
      MulAtLeast(q - q', d);
    } else if q' > q {
      MulAtLeast(q' - q, d);
    }
  }

  lemma {:induction false} FloorDivFloor(x: int, a: int, b: int)
    requires a > 0 && b > 0
    ensures (x / a) / b == x / (a * b)
  {
    var q := x / a;
    var q2 := q / b;
    assert x == q * a + x % a && 0 <= x % a < a;
    assert q == q2 * b + q % b && 0 <= q % b < b;
    assert x == q2 * (a * b) + ((q % b) * a + x % a) by {
      assert q * a == q2 * b * a + (q % b) * a;
    }
    assert (q % b) * a + x % a < a * b by {
      assert (q % b) * a <= (b - 1) * a;
    }
    assert 0 <= (q % b) * a;
    FloorDivUnique(x, a * b, q2);
  }

  /** Whole minutes: `m` minutes have passed but not `m + 1`. */
  lemma MinutesBounds(diffMs: int)
    ensures Minutes(diffMs) * MsPerMinute <= diffMs < (Minutes(diffMs) + 1) * MsPerMinute
  {
  }

  /** Flooring twice is flooring once: `h` is the whole hours elapsed. */
  lemma HoursBounds(diffMs: int)
    ensures Hours(diffMs) == diffMs / MsPerHour
    ensures Hours(diffMs) * MsPerHour <= diffMs < (Hours(diffMs) + 1) * MsPerHour
  {
    FloorDivFloor(diffMs, MsPerMinute, 60);
  }

  /** `d` is the whole days elapsed. */
  lemma DaysBounds(diffMs: int)
    ensures Days(diffMs) == diffMs / MsPerDay
    ensures Days(diffMs) * MsPerDay <= diffMs < (Days(diffMs) + 1) * MsPerDay
  {
    HoursBounds(diffMs);
    FloorDivFloor(diffMs, MsPerHour, 24);
  }

  /** The bucket a difference falls in and the number shown with it. */
  datatype Ago = JustNow | MinutesAgo(n: int) | HoursAgo(n: int) | DaysAgo(n: int)

  /** `text` with `suffix` taken off its end, if it ends with it. */
  function StripSuffix(text: string, suffix: string): (r: Option<string>)
    ensures r.Some? ==> r.value + suffix == text
  {
    if |suffix| <= |text| && text[|text| - |suffix|..] == suffix then
      var r := text[..|text| - |suffix|];
      assert r + suffix == text;
      Some(r)
    else None
  }

  lemma StripSuffixOf(prefix: string, suffix: string)
    ensures StripSuffix(prefix + suffix, suffix) == Some(prefix)
  {
    var t := prefix + suffix;
    assert t[|t| - |suffix|..] == suffix;
    assert t[..|t| - |suffix|] == prefix;
  }

  /** A text whose `k`-th character from the end differs from the suffix's
      does not end with it. */
  lemma StripSuffixMismatch(text: string, suffix: string, k: nat)
    requires 1 <= k <= |suffix| && k <= |text|
    requires text[|text| - k] != suffix[|suffix| - k]
    ensures StripSuffix(text, suffix) == None
  {
    if |suffix| <= |text| {
      assert text[|text| - |suffix|..][|suffix| - k] == text[|text| - k];
    }
  }
}
