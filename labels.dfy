/** Text shown on player tokens: a jersey number written in decimal (as a
    JavaScript template literal writes an integer), the default name
    "Jogador {number}", and the width of the name tag under a token. */
module Labels {

  import opened Geometry
  import opened Options

  /** True when every character of s is a decimal digit. */
  predicate IsDigits(s: string)
  {
    forall i :: 0 <= i < |s| ==> '0' <= s[i] <= '9'
  }

  function DigitChar(d: nat): (c: char)
    requires d < 10
    ensures '0' <= c <= '9'
    ensures c as int - '0' as int == d
  {
    ('0' as int + d) as char
  }

  /** The value of a string of decimal digits, most significant first. */
  function DigitsValue(s: string): nat
    requires IsDigits(s)
  {
    if s == [] then 0
    else DigitsValue(s[..|s| - 1]) * 10 + (s[|s| - 1] as int - '0' as int)
  }

  /** n in decimal, without leading zeros. */
  function NatToString(n: nat): (s: string)
    ensures |s| >= 1 && IsDigits(s)
    ensures s[0] == '0' ==> n == 0
  {
    if n < 10 then [DigitChar(n)]
    else NatToString(n / 10) + [DigitChar(n % 10)]
  }

  /** An integer in decimal, with a leading '-' when it is negative. */
  function IntToString(n: int): (s: string)
    ensures |s| >= 1
    ensures n >= 0 <==> s[0] != '-'
    ensures var digits := if n < 0 then s[1..] else s;
            IsDigits(digits) && DigitsValue(digits) == if n < 0 then -n else n
    ensures var digits := if n < 0 then s[1..] else s;
            |digits| >= 1 && (digits[0] == '0' ==> n == 0)
  {
    var magnitude := if n < 0 then -n else n;
    NatToStringRoundTrip(magnitude);
    assert ("-" + NatToString(magnitude))[1..] == NatToString(magnitude);
    if n < 0 then "-" + NatToString(magnitude) else NatToString(magnitude)
  }

  /** Reading back the decimal form of n gives n. */
  lemma {:induction false} NatToStringRoundTrip(n: nat)
    ensures DigitsValue(NatToString(n)) == n
  {
    var s := NatToString(n);
    if n >= 10 {
      NatToStringRoundTrip(n / 10);
      assert s[..|s| - 1] == NatToString(n / 10);
    }
  }

  /** Distinct integers are written differently. */
  lemma IntToStringInjective(m: int, n: int)
    requires IntToString(m) == IntToString(n)
    ensures m == n
  {
    if m >= 0 {
      NatToStringRoundTrip(m);
      NatToStringRoundTrip(n);
    } else {
      assert IntToString(m)[1..] == NatToString(-m);
      assert IntToString(n)[1..] == NatToString(-n);
      NatToStringRoundTrip(-m);
      NatToStringRoundTrip(-n);
    }
  }

  /** The name given to a new player and shown for a player without a name. */
  function DefaultName(number: int): (s: string)
    ensures |s| > |"Jogador "| && s[..|"Jogador "|] == "Jogador "
    ensures s[|"Jogador "|..] == IntToString(number)
  {
    "Jogador " + IntToString(number)
  }

  /** Two players get the same default name only if they have the same number. */
  lemma DefaultNameInjective(m: int, n: int)
    requires DefaultName(m) == DefaultName(n)
    ensures m == n
  {
    assert DefaultName(m)[|"Jogador "|..] == DefaultName(n)[|"Jogador "|..];
    IntToStringInjective(m, n);
  }

  /** `player.name || "Jogador {number}"`: an absent or empty name falls back
      to the default name. */
  function DisplayName(name: Option<string>, number: int): (s: string)
    ensures s != ""
    ensures name.Some? && name.value != "" ==> s == name.value
    ensures name.None? || name.value == "" ==> s == DefaultName(number)
  {
    if name.Some? && name.value != "" then name.value else DefaultName(number)
  }

  /** Width of the name tag: the measured text width plus 16 px of padding,
      clamped to [40, 120]. */
  function TagWidth(measured: real): (w: real)
    ensures 40.0 <= w <= 120.0
    ensures 24.0 <= measured <= 104.0 ==> w == measured + 16.0
    ensures measured < 24.0 ==> w == 40.0
    ensures measured > 104.0 ==> w == 120.0
  {
    Max(Min(measured + 16.0, 120.0), 40.0)
  }

  /** A wider text never gets a narrower tag. */
  lemma TagWidthMonotone(m1: real, m2: real)
    requires m1 <= m2
    ensures TagWidth(m1) <= TagWidth(m2)
  {
  }
}
