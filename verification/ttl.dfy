/** Time-to-live strings of the grammar `^(\d+)([smhd])$`, as read by
    `parseTtlSeconds` (used both to sign tokens and to size cookies) and by
    `getExpiryDate` (used to stamp the persisted refresh-token record). */
module Ttl {
  import opened Wrappers

  /** `JWT_ACCESS_TTL` default: 15 minutes, in seconds. */
  const AccessTtlDefault: int := 15 * 60
  /** `JWT_REFRESH_TTL` default: 7 days, in seconds. */
  const RefreshTtlDefault: int := 7 * 24 * 60 * 60
  /** The duration string `getExpiryDate` receives when `JWT_REFRESH_TTL` is unset. */
  const RefreshTtlFallbackText: string := "7d"

  datatype TimeUnit = Seconds | Minutes | Hours | Days

  datatype Duration = Duration(amount: nat, unit: TimeUnit)

  function UnitChar(u: TimeUnit): char {
    match u
    case Seconds => 's'
    case Minutes => 'm'
    case Hours => 'h'
    case Days => 'd'
  }

  function UnitOf(c: char): Option<TimeUnit> {
    if c == 's' then Some(Seconds)
    else if c == 'm' then Some(Minutes)
    else if c == 'h' then Some(Hours)
    else if c == 'd' then Some(Days)
    else None
  }

  /** The multiplier table of `parseTtlSeconds`. */
  function UnitSeconds(u: TimeUnit): nat {
    match u
    case Seconds => 1
    case Minutes => 60
    case Hours => 60 * 60
    case Days => 24 * 60 * 60
  }

  /** The separate multiplier table of `getExpiryDate`, in milliseconds. */
  function UnitMillis(u: TimeUnit): nat {
    match u
    case Seconds => 1000
    case Minutes => 60 * 1000
    case Hours => 60 * 60 * 1000
    case Days => 24 * 60 * 60 * 1000
  }

  /** `\d` without the `u` flag: ASCII digits only. */
  predicate IsDigit(c: char) {
    '0' <= c <= '9'
  }

  predicate AllDigits(s: string) {
    forall i :: 0 <= i < |s| ==> IsDigit(s[i])
  }

  /** `Number.parseInt(s, 10)` on a string of digits, exactly. */
  function DecimalValue(s: string): nat
    requires AllDigits(s)
    decreases |s|
  {
    if |s| == 0 then 0
    else DecimalValue(s[..|s| - 1]) * 10 + (s[|s| - 1] as int - '0' as int)
  }

  /** `s.match(/^(\d+)([smhd])$/)`: the digit run and the unit, when the
      whole string has that shape. */
  function MatchDuration(s: string): (r: Option<Duration>)
    ensures r.Some? <==> |s| >= 2 && AllDigits(s[..|s| - 1]) && UnitOf(s[|s| - 1]).Some?
    ensures r.Some? ==> s[|s| - 1] == UnitChar(r.value.unit)
    ensures r.Some? ==> r.value.amount == DecimalValue(s[..|s| - 1])
  {
    if |s| >= 2 && AllDigits(s[..|s| - 1]) && UnitOf(s[|s| - 1]).Some? then
      Some(Duration(DecimalValue(s[..|s| - 1]), UnitOf(s[|s| - 1]).value))
    else
      None
  }

  function DigitChar(d: nat): char
    requires d < 10
  {
    ('0' as int + d) as char
  }

  /** The canonical decimal spelling of `n` (no leading zeros). */
  function DecimalString(n: nat): (s: string)
    ensures |s| >= 1 && AllDigits(s)
    ensures |s| > 1 ==> s[0] != '0'
    decreases n
  {
    if n < 10 then [DigitChar(n)] else DecimalString(n / 10) + [DigitChar(n % 10)]
  }

  /** Reading back a canonical decimal spelling gives the number. */
  lemma {:induction false} DecimalRoundTrip(n: nat)
    ensures DecimalValue(DecimalString(n)) == n
    decreases n
  {
    if n >= 10 {
      DecimalRoundTrip(n / 10);
      var s := DecimalString(n);
      assert s[..|s| - 1] == DecimalString(n / 10);
    }
  }

  /** The canonical TTL string for a duration, e.g. `Duration(15, Minutes)` is `"15m"`. */
  function Format(d: Duration): string {
    DecimalString(d.amount) + [UnitChar(d.unit)]
  }

  /** Every duration has a spelling the grammar accepts and reads back exactly. */
  lemma MatchFormat(d: Duration)
    ensures MatchDuration(Format(d)) == Some(d)
  {
    var s := Format(d);
    assert s[..|s| - 1] == DecimalString(d.amount);
    DecimalRoundTrip(d.amount);
  }

  /** JavaScript truthiness of an optional string: set and non-empty. */
  predicate Truthy(value: Option<string>) {
    value.Some? && value.value != ""
  }

  /** `parseTtlSeconds(value, fallbackSeconds)`. */
  function ParseTtlSeconds(value: Option<string>, fallbackSeconds: int): (r: int)
    ensures !Truthy(value) ==> r == fallbackSeconds
    ensures Truthy(value) && MatchDuration(value.value).None? ==> r == fallbackSeconds
    ensures Truthy(value) && MatchDuration(value.value).Some? ==>
              var d := MatchDuration(value.value).value;
              r == d.amount * UnitSeconds(d.unit) && r >= 0
  {
    if !Truthy(value) then fallbackSeconds
    else
      match MatchDuration(value.value)
      case None => fallbackSeconds
      case Some(d) => d.amount * UnitSeconds(d.unit)
  }

  /** `getExpiryDate(duration)` at clock reading `now`, in epoch milliseconds. */
  /** Its own millisecond table agrees with `parseTtlSeconds` read with the
      seven-day fallback: the expiry lies that many seconds, times 1000,
      after `now`. */
  function ExpiryDate(duration: string, now: int): (r: int)
    ensures r >= now
    ensures r == now + ParseTtlSeconds(Some(duration), RefreshTtlDefault) * 1000
  {
    match MatchDuration(duration)
    case None => now + 7 * 24 * 60 * 60 * 1000
    case Some(d) =>
      assert UnitMillis(d.unit) == UnitSeconds(d.unit) * 1000;
      now + d.amount * UnitMillis(d.unit)
  }

  /** Every spelling of a duration, leading zeros included (`"05m"`), and
      its canonical spelling are read as its amount times its unit; a
      string outside the grammar, the empty string and an unset variable
      are read as the fallback. */
  lemma ParseTtlSecondsMeaning(v: string, d: Duration, other: string, fallbackSeconds: int)
    requires MatchDuration(v) == Some(d)
    requires MatchDuration(other).None?
    ensures ParseTtlSeconds(Some(v), fallbackSeconds) == d.amount * UnitSeconds(d.unit)
    ensures ParseTtlSeconds(Some(Format(d)), fallbackSeconds) == d.amount * UnitSeconds(d.unit)
    ensures ParseTtlSeconds(Some(other), fallbackSeconds) == fallbackSeconds
    ensures ParseTtlSeconds(Some(""), fallbackSeconds) == fallbackSeconds
    ensures ParseTtlSeconds(None, fallbackSeconds) == fallbackSeconds
  {
    MatchFormat(d);
  }

  /** For every value of `JWT_REFRESH_TTL` (unset, empty, malformed or
      well-formed) the expiry persisted with the refresh-token record,
      `getExpiryDate(ttl ?? '7d')`, lies exactly as far after `now` as the
      lifetime the refresh token is signed with. */
  lemma RefreshExpiryAgrees(ttl: Option<string>, now: int)
    ensures ExpiryDate(ttl.GetOr(RefreshTtlFallbackText), now) - now
            == ParseTtlSeconds(ttl, RefreshTtlDefault) * 1000
  {
    assert MatchDuration(RefreshTtlFallbackText) == Some(Duration(7, Days)) by {
      MatchFormat(Duration(7, Days));
      assert Format(Duration(7, Days)) == RefreshTtlFallbackText;
    }
    if Truthy(ttl) {
      match MatchDuration(ttl.value)
      case None =>
      case Some(d) =>
        assert UnitMillis(d.unit) == UnitSeconds(d.unit) * 1000;
    }
  }
}
