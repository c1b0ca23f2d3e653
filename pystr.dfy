/**
 * The handful of Python string built-ins the protocol relies on, as Python defines them:
 * `str.strip()`, `str.lower()`, `str.splitlines()` boundaries, `str(int)` and `int(str)`.
 * Letter case is folded for ASCII letters only.
 */
module PyStr {
  import opened Common

  /** The characters `str.isspace()` accepts, which are the ones `strip()` removes. */
  predicate IsSpace(c: char) {
    || c == ' ' || c == '\t' || c == '\n' || c == '\r' || c == '\U{000B}' || c == '\U{000C}'
    || ('\U{001C}' <= c <= '\U{001F}') || c == '\U{0085}' || c == '\U{00A0}' || c == '\U{1680}'
    || ('\U{2000}' <= c <= '\U{200A}') || c == '\U{2028}' || c == '\U{2029}' || c == '\U{202F}'
    || c == '\U{205F}' || c == '\U{3000}'
  }

  /** The line boundaries `str.splitlines()` splits at (every one of them is also a space). */
  predicate IsLineBreak(c: char) {
    || c == '\n' || c == '\r' || c == '\U{000B}' || c == '\U{000C}'
    || ('\U{001C}' <= c <= '\U{001E}') || c == '\U{0085}' || c == '\U{2028}' || c == '\U{2029}'
  }

  predicate AllSpace(s: string) {
    forall i :: 0 <= i < |s| ==> IsSpace(s[i])
  }

  predicate NoLineBreak(s: string) {
    forall i :: 0 <= i < |s| ==> !IsLineBreak(s[i])
  }

  /** Neither the first nor the last character is a space: what `strip()` leaves behind. */
  predicate NoEdgeSpace(s: string) {
    s == [] || (!IsSpace(s[0]) && !IsSpace(s[|s| - 1]))
  }

  /** `s.lstrip()`: what is left of `s` once its leading spaces are removed. */
  function LStrip(s: string): (r: string)
    ensures |r| <= |s|
    ensures r == [] || !IsSpace(r[0])
  {
    if s != [] && IsSpace(s[0]) then LStrip(s[1..]) else s
  }

  /** `s.rstrip()`: what is left of `s` once its trailing spaces are removed. */
  function RStrip(s: string): (r: string)
    ensures |r| <= |s|
    ensures r == [] || (r[0] == s[0] && !IsSpace(r[|r| - 1]))
  {
    if s != [] && IsSpace(s[|s| - 1]) then RStrip(s[..|s| - 1]) else s
  }

  /** `lstrip()` removes a prefix made of spaces only. */
  lemma {:induction false} LStripSuffix(s: string)
    ensures LStrip(s) == s[|s| - |LStrip(s)|..]
    ensures AllSpace(s[..|s| - |LStrip(s)|])
  {
    if s != [] && IsSpace(s[0]) {
      LStripSuffix(s[1..]);
      var n := |s| - |LStrip(s)|;
      assert s[1..][n - 1..] == s[n..];
      assert forall k :: 1 <= k < n ==> s[k] == s[1..][..n - 1][k - 1];
    }
  }

  /** `rstrip()` removes a suffix made of spaces only. */
  lemma {:induction false} RStripPrefix(s: string)
    ensures RStrip(s) == s[..|RStrip(s)|]
    ensures AllSpace(s[|RStrip(s)|..])
  {
    if s != [] && IsSpace(s[|s| - 1]) {
      var t := s[..|s| - 1];
      RStripPrefix(t);
      var n := |RStrip(s)|;
      assert t[..n] == s[..n];
      assert forall k :: n <= k < |s| - 1 ==> s[k] == t[n..][k - n];
    }
  }

  /** `s.strip()`. */
  function Strip(s: string): (r: string)
    ensures |r| <= |s|
    ensures NoEdgeSpace(r)
  {
    RStrip(LStrip(s))
  }

  lemma {:induction false} LStripAt(s: string, i: nat)
    requires i <= |s| && AllSpace(s[..i])
    requires i == |s| || !IsSpace(s[i])
    ensures LStrip(s) == s[i..]
  {
    if i > 0 {
      assert IsSpace(s[..i][0]);
      assert s[1..][..i - 1] == s[1..i];
      LStripAt(s[1..], i - 1);
      assert s[1..][i - 1..] == s[i..];
    }
  }

  lemma {:induction false} RStripAt(s: string, j: nat)
    requires j <= |s| && AllSpace(s[j..])
    requires j == 0 || !IsSpace(s[j - 1])
    ensures RStrip(s) == s[..j]
    decreases |s| - j
  {
    if j < |s| {
      assert IsSpace(s[j..][|s| - 1 - j]);
      var t := s[..|s| - 1];
      assert t[j..] == s[j..|s| - 1];
      RStripAt(t, j);
      assert t[..j] == s[..j];
    }
  }

  /**
   * `strip()` is characterised by a cut: if `s` is spaces, then `m`, then spaces, and `m`
   * has no space at either end, then `s.strip()` is `m`.
   */
  lemma {:induction false} StripAt(s: string, i: nat, j: nat)
    requires i <= j <= |s|
    requires AllSpace(s[..i]) && AllSpace(s[j..])
    requires NoEdgeSpace(s[i..j])
    ensures Strip(s) == s[i..j]
  {
    if i < j {
      assert !IsSpace(s[i..j][0]);
      LStripAt(s, i);
      var t := s[i..];
      assert t[j - i..] == s[j..];
      assert !IsSpace(s[i..j][j - i - 1]);
      RStripAt(t, j - i);
      assert t[..j - i] == s[i..j];
    } else {
      assert AllSpace(s[..|s|]) by {
        forall k | 0 <= k < |s| ensures IsSpace(s[k]) {
          if k < i { assert s[..i][k] == s[k]; } else { assert s[j..][k - j] == s[k]; }
        }
      }
      LStripAt(s, |s|);
    }
  }

  /** Where `strip()` cuts `s`. */
  lemma StripBounds(s: string) returns (i: nat, j: nat)
    ensures i <= j <= |s|
    ensures Strip(s) == s[i..j]
    ensures AllSpace(s[..i]) && AllSpace(s[j..])
  {
    var l := LStrip(s);
    LStripSuffix(s);
    RStripPrefix(l);
    i := |s| - |l|;
    j := i + |Strip(s)|;
    assert l[|Strip(s)|..] == s[j..];
    assert l[..|Strip(s)|] == s[i..j];
  }

  lemma StripNoEdge(s: string)
    requires NoEdgeSpace(s)
    ensures Strip(s) == s
  {
    StripAt(s, 0, |s|);
  }

  /** Surrounding whitespace does not matter to `strip()`. */
  lemma {:induction false} StripPadded(a: string, s: string, b: string)
    requires AllSpace(a) && AllSpace(b)
    ensures Strip(a + s + b) == Strip(s)
  {
    var i, j := StripBounds(s);
    var t := a + s + b;
    assert t[..|a| + i] == a + s[..i];
    assert t[|a| + j..] == s[j..] + b;
    assert t[|a| + i..|a| + j] == s[i..j];
    StripAt(t, |a| + i, |a| + j);
  }

  /** `c.lower()` for one character: ASCII capitals become small letters. */
  function LowerChar(c: char): char {
    if 'A' <= c <= 'Z' then (c as int + 32) as char else c
  }

  /** `s.lower()`. */
  function Lower(s: string): (r: string)
    ensures |r| == |s|
    ensures forall i :: 0 <= i < |s| ==> r[i] == LowerChar(s[i])
  {
    seq(|s|, i requires 0 <= i < |s| => LowerChar(s[i]))
  }

  lemma LowerSlice(s: string, i: nat, j: nat)
    requires i <= j <= |s|
    ensures Lower(s)[i..j] == Lower(s[i..j])
  {
  }

  /** Folding case neither creates nor removes spaces. */
  lemma LowerKeepsSpaces(s: string)
    ensures AllSpace(s) ==> AllSpace(Lower(s))
    ensures NoEdgeSpace(s) ==> NoEdgeSpace(Lower(s))
  {
  }

  /** `lower()` after `strip()` equals `strip()` after `lower()`. */
  lemma StripLowerCommute(s: string)
    ensures Strip(Lower(s)) == Lower(Strip(s))
  {
    var i, j := StripBounds(s);
    var t := Lower(s);
    LowerSlice(s, 0, i);
    LowerSlice(s, j, |s|);
    LowerSlice(s, i, j);
    assert t[..i] == t[0..i] && t[j..] == t[j..|s|] && s[..i] == s[0..i] && s[j..] == s[j..|s|];
    LowerKeepsSpaces(s[..i]);
    LowerKeepsSpaces(s[j..]);
    LowerKeepsSpaces(s[i..j]);
    StripAt(t, i, j);
  }

  lemma LowerIdempotent(s: string)
    ensures Lower(Lower(s)) == Lower(s)
  {
  }

  /** `s.strip().lower()`: the key under which names are stored and looked up. */
  function Normalize(s: string): (r: string)
    ensures NoEdgeSpace(r)
  {
    Lower(Strip(s))
  }

  /** Normalising a normalised name changes nothing. */
  lemma NormalizeIdempotent(s: string)
    ensures Normalize(Normalize(s)) == Normalize(s)
  {
    StripNoEdge(Lower(Strip(s)));
    LowerIdempotent(Strip(s));
  }

  /**
   * Letter case and surrounding whitespace do not matter: any variant of `name` that differs
   * only in case, with whitespace on either side, normalises to the same key.
   */
  lemma NormalizeInsensitive(name: string, variant: string, a: string, b: string)
    requires Lower(variant) == Lower(name)
    requires AllSpace(a) && AllSpace(b)
    ensures Normalize(a + variant + b) == Normalize(name)
  {
    StripPadded(a, variant, b);
    StripLowerCommute(variant);
    StripLowerCommute(name);
  }

  predicate IsDigit(c: char) {
    '0' <= c <= '9'
  }

  predicate AllDigits(s: string) {
    forall i :: 0 <= i < |s| ==> IsDigit(s[i])
  }

  function DigitChar(d: nat): (c: char)
    requires d < 10
    ensures IsDigit(c)
  {
    ('0' as int + d) as char
  }

  /** The decimal digits of `n`, without leading zeros. */
  function Decimal(n: nat): (r: string)
    ensures |r| >= 1 && AllDigits(r)
  {
    if n < 10 then [DigitChar(n)] else Decimal(n / 10) + [DigitChar(n % 10)]
  }

  /** The number a string of decimal digits denotes. */
  function DigitsValue(s: string): nat
    requires AllDigits(s)
  {
    if s == [] then 0 else DigitsValue(s[..|s| - 1]) * 10 + (s[|s| - 1] as int - '0' as int)
  }

  lemma {:induction false} DecimalValue(n: nat)
    ensures DigitsValue(Decimal(n)) == n
  {
    if n >= 10 {
      var d := Decimal(n);
      assert d[..|d| - 1] == Decimal(n / 10);
      DecimalValue(n / 10);
    }
  }

  /** `str(i)` for an integer. */
  function IntToString(i: int): (r: string)
    ensures |r| >= 1
  {
    if i < 0 then "-" + Decimal(-i) else Decimal(i)
  }

  /**
   * `int(s)` for a string: surrounding whitespace, an optional sign, then one or more
   * decimal digits. `None` stands for the `ValueError` Python raises otherwise.
   */
  function ParseInt(s: string): (r: Option<int>)
  {
    var t := Strip(s);
    var body := if t != [] && (t[0] == '-' || t[0] == '+') then t[1..] else t;
    if body != [] && AllDigits(body) then
      Some(if t[0] == '-' then 0 - DigitsValue(body) else DigitsValue(body))
    else
      None
  }

  /**
   * `int(s or 0)` for a string: the empty string reads as 0, the text of a number reads as
   * that number, and a string of whitespace alone is truthy, so `int()` sees it and raises.
   */
  function IntOrZero(s: string): (r: Option<int>)
    ensures s == [] ==> r == Some(0)
    ensures forall n :: s == IntToString(n) ==> r == Some(n)
    ensures s != [] && AllSpace(s) ==> r.None?
    ensures s != [] ==> r == ParseInt(s)
  {
    IntRoundTripAll();
    if s == [] then Some(0)
    else
      if AllSpace(s) then
        assert s + [] + [] == s;
        StripPadded(s, [], []);
        ParseInt(s)
      else ParseInt(s)
  }

  lemma IntRoundTripAll()
    ensures forall n :: ParseInt(IntToString(n)) == Some(n)
  {
    forall n ensures ParseInt(IntToString(n)) == Some(n) {
      IntRoundTrip(n);
    }
  }

  /** `int(str(i)) == i`. */
  lemma IntRoundTrip(i: int)
    ensures ParseInt(IntToString(i)) == Some(i)
  {
    var s := IntToString(i);
    var d := Decimal(if i < 0 then -i else i);
    assert !IsDigit('-') && !IsSpace('-');
    assert !IsSpace(s[0]) && !IsSpace(s[|s| - 1]);
    StripNoEdge(s);
    var body := if s[0] == '-' || s[0] == '+' then s[1..] else s;
    assert body == d;
    DecimalValue(if i < 0 then -i else i);
  }

  /** A string that is not blank, not signed and has a non-digit is refused by `int()`. */
  lemma ParseIntRejects(s: string, k: nat)
    requires NoEdgeSpace(s) && k < |s| && !IsDigit(s[k])
    requires k > 0 || (s[0] != '-' && s[0] != '+')
    ensures ParseInt(s) == None
  {
    StripNoEdge(s);
    var body := if s[0] == '-' || s[0] == '+' then s[1..] else s;
    if s[0] == '-' || s[0] == '+' {
      assert body[k - 1] == s[k];
    } else {
      assert body[k] == s[k];
    }
    assert !AllDigits(body);
  }
}
