/** The two `FromStr` implementations of Rust's standard library that the
    program relies on: `str::parse::<usize>` (for `--minlength` values and the
    MIN_LENGTH environment variable) and `str::parse::<bool>` (for the boolean
    environment variables). A 64-bit target is assumed for `usize`. */
module StdParse {
  import opened Basics

  const USIZE_MAX: int := 0xFFFF_FFFF_FFFF_FFFF

  /** Rust's `usize` on a 64-bit target. */
  type usize = n: int | 0 <= n <= USIZE_MAX

  predicate IsDigit(c: char) {
    '0' <= c <= '9'
  }

  predicate AllDigits(s: string) {
    forall i :: 0 <= i < |s| ==> IsDigit(s[i])
  }

  function DigitValue(c: char): (d: nat)
    requires IsDigit(c)
    ensures d < 10
  {
    c as int - '0' as int
  }

  function DigitChar(d: nat): (c: char)
    requires d < 10
    ensures IsDigit(c) && DigitValue(c) == d
  {
    ('0' as int + d) as char
  }

  /** The number a string of decimal digits denotes, most significant first. */
  function DigitsValue(s: string): nat
    requires AllDigits(s)
  {
    if |s| == 0 then 0 else DigitsValue(s[..|s| - 1]) * 10 + DigitValue(s[|s| - 1])
  }

  /** The textual shape `usize::from_str` accepts: an optional '+' followed by
      at least one ASCII digit. A '-' is never accepted for an unsigned type. */
  predicate UsizeLiteral(s: string) {
    || (|s| >= 1 && AllDigits(s))
    || (|s| >= 2 && s[0] == '+' && AllDigits(s[1..]))
  }

  /** The digit part of a literal, with the optional '+' removed. */
  function UnsignedDigits(s: string): string {
    if |s| > 0 && s[0] == '+' then s[1..] else s
  }

  /** Rust's digit loop: each character must be a decimal digit, and the
      running value is multiplied and added with overflow checks. */
  function CheckedDigits(s: string, i: nat, acc: usize): (r: Option<usize>)
    requires i <= |s|
    ensures r.Some? ==> forall k :: i <= k < |s| ==> IsDigit(s[k])
    ensures r.Some? ==> acc <= r.value
    decreases |s| - i
  {
    if i == |s| then Some(acc)
    else if !IsDigit(s[i]) then None
    else if acc * 10 + DigitValue(s[i]) > USIZE_MAX then None
    else CheckedDigits(s, i + 1, acc * 10 + DigitValue(s[i]))
  }

  /** `str::parse::<usize>`: the empty string and a lone sign fail, a leading
      '+' is skipped, and the rest goes through the checked digit loop. */
  function ParseUsize(s: string): (r: Option<usize>)
    ensures r.Some? <==> UsizeLiteral(s) && DigitsValue(UnsignedDigits(s)) <= USIZE_MAX
    ensures r.Some? ==> r.value == DigitsValue(UnsignedDigits(s))
  {
    if |s| == 0 then None
    else if (s[0] == '+' || s[0] == '-') && |s| == 1 then None
    else
      var digits := if s[0] == '+' then s[1..] else s;
      assert digits == UnsignedDigits(s);
      assert digits[..0] == [];
      CheckedDigitsValue(digits, 0, 0);
      CheckedDigits(digits, 0, 0)
  }

  /** `str::parse::<bool>`: exactly "true" and "false" are accepted. */
  function ParseBool(s: string): (r: Option<bool>)
    ensures r.Some? <==> s == "true" || s == "false"
    ensures r.Some? ==> (r.value <==> s == "true")
  {
    match s
    case "true" => Some(true)
    case "false" => Some(false)
    case _ => None
  }

  /** Canonical decimal rendering (no sign, no leading zeros). */
  function RenderUsize(n: nat): (r: string)
    ensures |r| >= 1 && AllDigits(r)
    ensures DigitsValue(r) == n
    ensures |r| > 1 ==> r[0] != '0'
  {
    if n < 10 then [DigitChar(n)]
    else
      var r := RenderUsize(n / 10) + [DigitChar(n % 10)];
      assert r[..|r| - 1] == RenderUsize(n / 10);
      r
  }

  /** Digits are never lost from a prefix: the value of a prefix is at most
      the value of the whole digit string. */
  lemma {:induction false} DigitsValuePrefix(s: string, i: nat)
    requires AllDigits(s) && i <= |s|
    ensures AllDigits(s[..i]) && DigitsValue(s[..i]) <= DigitsValue(s)
    decreases |s|
  {
    if i < |s| {
      var t := s[..|s| - 1];
      assert t[..i] == s[..i];
      DigitsValuePrefix(t, i);
    } else {
      assert s[..i] == s;
    }
  }

  /** The checked digit loop succeeds exactly on digit strings whose value fits,
      and then yields that value. */
  lemma {:induction false} CheckedDigitsValue(s: string, i: nat, acc: usize)
    requires i <= |s| && AllDigits(s[..i]) && acc == DigitsValue(s[..i])
    ensures CheckedDigits(s, i, acc) ==
            if AllDigits(s) && DigitsValue(s) <= USIZE_MAX then Some(DigitsValue(s)) else None
    decreases |s| - i
  {
    if i == |s| {
      assert s[..i] == s;
    } else if !IsDigit(s[i]) {
      assert !AllDigits(s);
    } else {
      var p := s[..i + 1];
      assert p[..|p| - 1] == s[..i];
      assert AllDigits(p);
      assert DigitsValue(p) == acc * 10 + DigitValue(s[i]);
      if acc * 10 + DigitValue(s[i]) > USIZE_MAX {
        if AllDigits(s) {
          DigitsValuePrefix(s, i + 1);
        }
      } else {
        CheckedDigitsValue(s, i + 1, acc * 10 + DigitValue(s[i]));
      }
    }
  }

  /** Rendering a number and parsing it back yields the number, with or
      without the optional '+'. */
  lemma UsizeRoundTrip(n: usize)
    ensures ParseUsize(RenderUsize(n)) == Some(n)
    ensures ParseUsize("+" + RenderUsize(n)) == Some(n)
  {
    var r := RenderUsize(n);
    assert ("+" + r)[1..] == r;
  }

  /** No text that starts with '-' is a `usize`. */
  lemma NegativeRejected(s: string)
    requires |s| > 0 && s[0] == '-'
    ensures ParseUsize(s) == None
  {
  }
}
