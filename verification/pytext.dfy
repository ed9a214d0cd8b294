/** The parts of Python's `str` and `int` the generator scripts rely on:
    `str.strip()`, `int(text)` on decimal text and `str(n)`. Only ASCII
    decimal digits are modelled; `int` also accepts other Unicode digits and
    underscores between digits. */
module PyText {
  import opened Common

  /** The characters Python's `str.strip()` removes (`str.isspace`). */
  predicate IsSpace(c: char) {
    || c == ' ' || c == '\t' || c == '\n' || c == '\r' || c == '\U{000B}' || c == '\U{000C}'
    || ('\U{001C}' <= c <= '\U{001F}') || c == '\U{0085}' || c == '\U{00A0}' || c == '\U{1680}'
    || ('\U{2000}' <= c <= '\U{200A}') || c == '\U{2028}' || c == '\U{2029}' || c == '\U{202F}'
    || c == '\U{205F}' || c == '\U{3000}'
  }

  predicate AllSpace(s: string) {
    forall k :: 0 <= k < |s| ==> IsSpace(s[k])
  }

  /** Neither end is whitespace. */
  predicate Stripped(s: string) {
    |s| == 0 || (!IsSpace(s[0]) && !IsSpace(s[|s| - 1]))
  }

  /** The number of whitespace characters `s` starts with. */
  function Lead(s: string): (n: nat)
    ensures n <= |s| && AllSpace(s[..n]) && (n == |s| || !IsSpace(s[n]))
    decreases |s|
  {
    if |s| > 0 && IsSpace(s[0]) then
      var n := 1 + Lead(s[1..]);
      assert s[..n] == [s[0]] + s[1..][..n - 1];
      n
    else 0
  }

  /** The number of whitespace characters `s` ends with. */
  function Trail(s: string): (n: nat)
    ensures n <= |s| && AllSpace(s[|s| - n..]) && (n == |s| || !IsSpace(s[|s| - n - 1]))
    decreases |s|
  {
    if |s| > 0 && IsSpace(s[|s| - 1]) then
      var init := s[..|s| - 1];
      var m := Trail(init);
      var n := 1 + m;
      assert s[|s| - n..] == init[|init| - m..] + [s[|s| - 1]];
      assert AllSpace(s[|s| - n..]);
      assert n < |s| ==> s[|s| - n - 1] == init[|init| - m - 1];
      n
    else 0
  }

  /** `str.strip()`: the slice of `s` left once the whitespace at both ends
      is cut off. */
  function Strip(s: string): (r: string)
    ensures Stripped(r)
    ensures Lead(s) <= |s| - |r| && r == s[Lead(s)..Lead(s) + |r|]
    ensures AllSpace(s[..Lead(s)]) && AllSpace(s[Lead(s) + |r|..])
  {
    var i := Lead(s);
    var t := Trail(s[i..]);
    StripParts(s, i, t);
    s[i..|s| - t]
  }

  /** Cutting a leading blank run of length `i` and a trailing blank run of
      length `t` off `s` leaves a stripped middle. */
  lemma StripParts(s: string, i: nat, t: nat)
    requires i <= |s| && AllSpace(s[..i]) && (i == |s| || !IsSpace(s[i]))
    requires t <= |s| - i && AllSpace(s[i..][|s| - i - t..]) && (t == |s| - i || !IsSpace(s[i..][|s| - i - t - 1]))
    ensures var r := s[i..|s| - t];
      && Stripped(r) && r == s[i..i + |r|] && AllSpace(s[..i]) && AllSpace(s[i + |r|..])
  {
    var l := s[i..];
    var r := s[i..|s| - t];
    var n := |s| - i - t;
    assert |l| == |s| - i && |r| == n;
    assert s[i + n..] == l[n..];
    if n > 0 {
      assert r[0] == s[i];
      assert r[n - 1] == l[n - 1];
    }
  }

  /** Stripping adds no character. */
  lemma StripInside(s: string, c: char)
    ensures c in Strip(s) ==> c in s
  {
    var r := Strip(s);
    var i := Lead(s);
    SliceInside(s, i, i + |r|, c);
  }

  lemma SliceInside(s: string, i: nat, j: nat, c: char)
    requires i <= j <= |s|
    ensures c in s[i..j] ==> c in s
  {
    if c in s[i..j] {
      var k :| 0 <= k < j - i && s[i..j][k] == c;
      assert s[i + k] == c;
    }
  }

  /** Stripping a stripped string changes nothing. */
  lemma StripStripped(s: string)
    requires Stripped(s)
    ensures Strip(s) == s
  {
    assert Lead(s) == 0;
    assert Trail(s[0..]) == 0;
    assert s[0..|s| - 0] == s;
  }

  /** An item is dropped exactly when it is blank (all whitespace, or empty). */
  lemma {:induction false} StripEmptyIffBlank(s: string)
    ensures Strip(s) == "" <==> AllSpace(s)
  {
    var r := Strip(s);
    var i := Lead(s);
    BlankAround(s, r, i);
  }

  /** A stripped middle between two blank runs is empty exactly when the
      whole string is blank. */
  lemma BlankAround(s: string, r: string, i: nat)
    requires Stripped(r) && i <= |s| - |r| && r == s[i..i + |r|]
    requires AllSpace(s[..i]) && AllSpace(s[i + |r|..])
    ensures r == "" <==> AllSpace(s)
  {
    if r == "" {
      forall k | 0 <= k < |s|
        ensures IsSpace(s[k])
      {
        if k < i {
          assert s[..i][k] == s[k];
        } else {
          assert s[i..][k - i] == s[k];
        }
      }
    } else {
      assert s[i] == r[0];
    }
  }

  predicate IsDigit(c: char) {
    '0' <= c <= '9'
  }

  predicate AllDigits(s: string) {
    forall k :: 0 <= k < |s| ==> IsDigit(s[k])
  }

  function DigitValue(c: char): nat
    requires IsDigit(c)
  {
    (c as int) - ('0' as int)
  }

  /** The value of a run of decimal digits, most significant first. */
  function DigitsValue(s: string): nat
    requires AllDigits(s)
    decreases |s|
  {
    if |s| == 0 then 0 else DigitsValue(s[..|s| - 1]) * 10 + DigitValue(s[|s| - 1])
  }

  /** `int(s)` for a string: surrounding whitespace, an optional sign and at
      least one digit; anything else raises `ValueError` (None). */
  function IntOf(s: string): Option<int> {
    SignedDecimal(Strip(s))
  }

  /** The value of already stripped text: an optional sign and at least one
      digit, nothing else. */
  function SignedDecimal(t: string): Option<int> {
    if |t| > 0 && (t[0] == '-' || t[0] == '+') then
      var d := t[1..];
      if |d| > 0 && AllDigits(d) then
        var v: int := DigitsValue(d);
        Some(if t[0] == '-' then -v else v)
      else None
    else if |t| > 0 && AllDigits(t) then Some(DigitsValue(t))
    else None
  }

  function DigitChar(d: nat): (c: char)
    requires d < 10
    ensures IsDigit(c) && DigitValue(c) == d
  {
    ('0' as int + d) as char
  }

  /** `str(n)` for a natural number. */
  function ShowNat(n: nat): (s: string)
    ensures |s| > 0 && AllDigits(s)
    decreases n
  {
    if n < 10 then [DigitChar(n)] else ShowNat(n / 10) + [DigitChar(n % 10)]
  }

  /** `str(n)`. */
  function ShowInt(n: int): string {
    if n < 0 then "-" + ShowNat(-n) else ShowNat(n)
  }

  lemma {:induction false} ShowNatValue(n: nat)
    ensures DigitsValue(ShowNat(n)) == n
    decreases n
  {
    if n >= 10 {
      ShowNatValue(n / 10);
      var s := ShowNat(n);
      assert s[..|s| - 1] == ShowNat(n / 10);
    }
  }

  /** What `str` writes, `int` reads back. */
  lemma IntOfShowInt(n: int)
    ensures IntOf(ShowInt(n)) == Some(n)
  {
    var s := ShowInt(n);
    assert Stripped(s) by {
      var digits := ShowNat(if n < 0 then -n else n);
      assert s[|s| - 1] == digits[|digits| - 1];
    }
    StripStripped(s);
    SignedDecimalShowInt(n);
  }

  lemma SignedDecimalShowInt(n: int)
    ensures SignedDecimal(ShowInt(n)) == Some(n)
  {
    var s := ShowInt(n);
    var digits := ShowNat(if n < 0 then -n else n);
    ShowNatValue(if n < 0 then -n else n);
    if n < 0 {
      assert s[1..] == digits;
    }
  }
}
