/** Lower-case hexadecimal text, as `std::hex` prints it. */
module Hex {
  function Digit(d: nat): char
    requires d < 16
  {
    "0123456789abcdef"[d]
  }

  predicate IsDigit(c: char) {
    '0' <= c <= '9' || 'a' <= c <= 'f'
  }

  function DigitValue(c: char): (d: nat)
    requires IsDigit(c)
    ensures d < 16 && Digit(d) == c
  {
    if c <= '9' then c as int - '0' as int else c as int - 'a' as int + 10
  }

  /** Without leading zeros; zero is "0". */
  function Text(n: nat): (s: string)
    ensures |s| >= 1 && forall k :: 0 <= k < |s| ==> IsDigit(s[k])
  {
    if n < 16 then [Digit(n)] else Text(n / 16) + [Digit(n % 16)]
  }

  /** Reads hexadecimal text back. */
  function Value(s: string): nat
    requires forall k :: 0 <= k < |s| ==> IsDigit(s[k])
  {
    if s == "" then 0 else 16 * Value(s[..|s| - 1]) + DigitValue(s[|s| - 1])
  }

  lemma ValueAppend(s: string, d: nat)
    requires d < 16 && forall k :: 0 <= k < |s| ==> IsDigit(s[k])
    ensures forall k :: 0 <= k < |s + [Digit(d)]| ==> IsDigit((s + [Digit(d)])[k])
    ensures Value(s + [Digit(d)]) == 16 * Value(s) + d
  {
    var t := s + [Digit(d)];
    assert t[..|t| - 1] == s;
    assert DigitValue(Digit(d)) == d;
  }

  lemma {:induction false} TextRoundTrip(n: nat)
    ensures Value(Text(n)) == n
  {
    var t := Text(n);
    if n >= 16 {
      TextRoundTrip(n / 16);
      ValueAppend(Text(n / 16), n % 16);
    } else {
      assert t == "" + [Digit(n)];
      ValueAppend("", n);
    }
  }

  /** `setw(w)` with `setfill('0')`. */
  function Padded(n: nat, w: nat): (s: string)
    ensures |s| >= w && forall k :: 0 <= k < |s| ==> IsDigit(s[k])
  {
    var t := Text(n);
    if |t| >= w then t else seq(w - |t|, _ => '0') + t
  }
}
