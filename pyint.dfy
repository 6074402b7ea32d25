/**
 * Python's `int(text)` on a string, as used by the handicap extractor, with
 * decimal rendering as its inverse.
 *
 * Python also accepts non-ASCII decimal digits and single underscores between
 * digits, and refuses literals longer than its digit limit; this model accepts
 * an optional sign followed by ASCII digits, surrounded by whitespace.
 */
module PyInt {
  import opened Base
  import opened PyStr

  predicate IsDigit(c: char) {
    '0' <= c <= '9'
  }

  /** A non-empty run of ASCII digits. */
  predicate IsDigits(d: string) {
    d != [] && forall i :: 0 <= i < |d| ==> IsDigit(d[i])
  }

  predicate IsSign(c: char) {
    c == '+' || c == '-'
  }

  /** What `int()` accepts once the text is stripped: an optional sign, then a run of digits. */
  predicate IsIntLiteral(t: string) {
    IsDigits(t) || (t != [] && IsSign(t[0]) && IsDigits(t[1..]))
  }

  /** A possibly empty run of '0'. */
  predicate IsZeros(z: string) {
    forall i :: 0 <= i < |z| ==> z[i] == '0'
  }

  /** Decimal value of a run of digits, most significant first. */
  function DigitsValue(d: string): nat
    requires forall i :: 0 <= i < |d| ==> IsDigit(d[i])
  {
    if d == [] then 0
    else
      assert IsDigit(d[|d| - 1]);
      DigitsValue(d[..|d| - 1]) * 10 + (d[|d| - 1] as int - '0' as int)
  }

  /**
   * `int(text)`: `Some(k)` when the stripped text is an optional sign and a
   * run of digits, `None` where Python raises `ValueError`.
   */
  function ParseInt(text: string): (r: Option<int>)
    ensures r.Some? <==> IsIntLiteral(Strip(text))
    ensures r.Some? ==> Strip(text) != []
    ensures r.Some? && r.value < 0 ==> Strip(text)[0] == '-'
  {
    var t := Strip(text);
    if t != [] && IsSign(t[0]) then
      var d := t[1..];
      if IsDigits(d) then
        var v: int := DigitsValue(d);
        Some(if t[0] == '-' then -v else v)
      else None
    else if IsDigits(t) then Some(DigitsValue(t))
    else None
  }

  function DigitChar(k: nat): char
    requires k < 10
  {
    ('0' as int + k) as char
  }

  /** Decimal digits of `n` without leading zeros: Python's `str(n)` for n >= 0. */
  function RenderNat(n: nat): (d: string)
    ensures IsDigits(d)
    ensures |d| > 1 ==> d[0] != '0'
  {
    if n < 10 then [DigitChar(n)]
    else
      var d := RenderNat(n / 10) + [DigitChar(n % 10)];
      assert d[0] == RenderNat(n / 10)[0];
      d
  }

  /** Python's `str(k)`. */
  function Render(k: int): string
  {
    if k < 0 then "-" + RenderNat(-k) else RenderNat(k)
  }

  lemma {:induction false} DigitsValueOfRender(n: nat)
    ensures DigitsValue(RenderNat(n)) == n
  {
    if n >= 10 {
      var d := RenderNat(n);
      assert d[..|d| - 1] == RenderNat(n / 10);
      DigitsValueOfRender(n / 10);
    }
  }

  /** Every run of digits is some zeros followed by the canonical rendering of its value. */
  lemma {:induction false} DigitsCanonical(d: string)
    requires IsDigits(d)
    ensures var c := RenderNat(DigitsValue(d));
      |c| <= |d| && d[|d| - |c|..] == c && IsZeros(d[..|d| - |c|])
  {
    var p, last := d[..|d| - 1], d[|d| - 1];
    assert d == p + [last];
    var v := DigitsValue(d);
    var lv := last as int - '0' as int;
    assert 0 <= lv < 10 && DigitChar(lv) == last;
    assert v == DigitsValue(p) * 10 + lv;
    if p == [] {
      assert v == lv;
    } else {
      assert forall i :: 0 <= i < |p| ==> p[i] == d[i];
      DigitsCanonical(p);
      var pv := DigitsValue(p);
      var pc := RenderNat(pv);
      if pv == 0 {
        assert pc == "0";
        assert forall i :: 0 <= i < |p| ==> p[i] == '0' by {
          forall i | 0 <= i < |p|
            ensures p[i] == '0'
          {
            if i < |p| - 1 {
              assert p[..|p| - 1][i] == p[i];
            } else {
              assert p[|p| - 1..][0] == p[i];
            }
          }
        }
        assert RenderNat(v) == [last];
        assert d[..|d| - 1] == p;
      } else {
        assert v / 10 == pv && v % 10 == lv;
        assert RenderNat(v) == pc + [last];
        assert d[|d| - |pc| - 1..] == p[|p| - |pc|..] + [last];
        assert d[..|d| - |pc| - 1] == p[..|p| - |pc|];
      }
    }
  }

  /**
   * Every accepted text is an optional sign, some zeros and the canonical
   * rendering of the magnitude; a '-' sign gives a value <= 0 (for "-0")
   * and any other text a value >= 0.
   */
  lemma ParseIntSound(text: string, k: int)
    requires ParseInt(text) == Some(k)
    ensures var t := Strip(text);
      var digits := if IsSign(t[0]) then t[1..] else t;
      var c := RenderNat(if k < 0 then -k else k);
      (t[0] == '-' ==> k <= 0) && (t[0] != '-' ==> k >= 0)
      && |c| <= |digits| && digits[|digits| - |c|..] == c && IsZeros(digits[..|digits| - |c|])
  {
    var t := Strip(text);
    var digits := if IsSign(t[0]) then t[1..] else t;
    DigitsCanonical(digits);
  }

  /** Parsing what rendering produced gives the integer back, for every integer. */
  lemma ParseRender(k: int)
    ensures ParseInt(Render(k)) == Some(k)
  {
    var s := Render(k);
    var n := if k < 0 then -k else k;
    DigitsValueOfRender(n);
    assert !IsSpace(s[0]) && !IsSpace(s[|s| - 1]);
    assert LeadingSpaces(s) == 0;
    assert TrimRight(s) == s;
    if k < 0 {
      assert s[1..] == RenderNat(n);
    }
  }

  /** A sign and leading zeros are accepted. */
  lemma ParseIntAccepts()
    ensures ParseInt("12") == Some(12)
    ensures ParseInt("-3") == Some(-3)
    ensures ParseInt("+007") == Some(7)
  {
    StripTrimmed("12");
    assert DigitsValue("12") == 12 by { assert "12"[..1] == "1"; }
    StripTrimmed("-3");
    assert "-3"[1..] == "3";
    StripTrimmed("+007");
    assert "+007"[1..] == "007";
    assert DigitsValue("007") == 7 by {
      assert "007"[..2] == "00";
      assert "00"[..1] == "0";
    }
  }

  /** Blank text, a bare sign, a decimal fraction and trailing letters are refused. */
  lemma ParseIntRejects()
    ensures ParseInt("") == None
    ensures ParseInt("-") == None
    ensures ParseInt("1.5") == None
    ensures ParseInt("12a") == None
  {
    StripTrimmed("12a");
    assert !IsDigit("12a"[2]);
    StripTrimmed("1.5");
    assert !IsDigit("1.5"[1]);
    StripTrimmed("-");
    assert "-"[1..] == "";
  }
}
