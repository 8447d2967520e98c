/** Rendering of hours and agent numbers as text, and the substring
    replacement applied to the rendered working windows. */
module Text {

  /** The ten decimal digit characters, in order. */
  const Digits := "0123456789"

  predicate IsDigit(c: char) {
    '0' <= c <= '9'
  }

  predicate AllDigits(s: string) {
    forall k :: 0 <= k < |s| ==> IsDigit(s[k])
  }

  function DigitChar(d: nat): (c: char)
    requires d < 10
    ensures IsDigit(c) && c as int - '0' as int == d
  {
    Digits[d]
  }

  function DigitValue(c: char): nat
    requires IsDigit(c)
  {
    c as int - '0' as int
  }

  /** The value a string of decimal digits denotes (the empty string denotes 0). */
  function ParseDecimal(s: string): nat
    requires AllDigits(s)
  {
    if s == [] then 0 else 10 * ParseDecimal(s[..|s| - 1]) + DigitValue(s[|s| - 1])
  }

  /** Decimal rendering without padding, as `str(n)` or `f"{n}"` produce it. */
  function Decimal(n: nat): (s: string)
    ensures |s| >= 1 && AllDigits(s)
  {
    if n < 10 then [DigitChar(n)] else Decimal(n / 10) + [DigitChar(n % 10)]
  }

  /** Reading back a rendered number gives the number. */
  lemma {:induction false} DecimalRoundTrip(n: nat)
    ensures ParseDecimal(Decimal(n)) == n
  {
    var s := Decimal(n);
    if n < 10 {
      assert s[..|s| - 1] == [];
    } else {
      DecimalRoundTrip(n / 10);
      assert s[..|s| - 1] == Decimal(n / 10);
    }
  }

  /** Two different numbers never render alike. */
  lemma DecimalInjective(m: nat, n: nat)
    requires Decimal(m) == Decimal(n)
    ensures m == n
  {
    DecimalRoundTrip(m);
    DecimalRoundTrip(n);
  }

  /** Zero-padded two-digit rendering of an hour of the day, as the format
      `{h:02d}` produces it. */
  function TwoDigits(h: nat): (s: string)
    requires h < 24
    ensures |s| == 2 && AllDigits(s)
  {
    if h < 10 then ['0', DigitChar(h)]
    else if h < 20 then ['1', DigitChar(h - 10)]
    else ['2', DigitChar(h - 20)]
  }

  /** Reading back a two-digit rendering gives the hour. */
  lemma TwoDigitsRoundTrip(h: nat)
    requires h < 24
    ensures ParseDecimal(TwoDigits(h)) == h
  {
    var s := TwoDigits(h);
    assert s[..1][..0] == [];
    assert ParseDecimal(s[..1]) == s[0] as int - '0' as int;
    assert s[..|s| - 1] == s[..1];
  }

  /** An interval between two hours of the day rendered as "HH:00-HH:00". */
  function HourRange(a: nat, b: nat): (s: string)
    requires a < 24 && b < 24
    ensures |s| == 11 && s[2..5] == ":00" && s[5] == '-' && s[8..] == ":00"
    ensures AllDigits(s[..2]) && AllDigits(s[6..8])
  {
    var s := TwoDigits(a) + ":00" + "-" + TwoDigits(b) + ":00";
    assert s[..2] == TwoDigits(a);
    assert s[6..8] == TwoDigits(b);
    s
  }

  /** The two hours of a rendered interval read back as the hours rendered. */
  lemma HourRangeRoundTrip(a: nat, b: nat)
    requires a < 24 && b < 24
    ensures ParseDecimal(HourRange(a, b)[..2]) == a
    ensures ParseDecimal(HourRange(a, b)[6..8]) == b
  {
    var s := HourRange(a, b);
    assert s[..2] == TwoDigits(a);
    assert s[6..8] == TwoDigits(b);
    TwoDigitsRoundTrip(a);
    TwoDigitsRoundTrip(b);
  }

  /** Two rendered intervals are equal exactly when their hours are. */
  lemma HourRangeInjective(a: nat, b: nat, c: nat, d: nat)
    requires a < 24 && b < 24 && c < 24 && d < 24
    ensures HourRange(a, b) == HourRange(c, d) <==> a == c && b == d
  {
    HourRangeRoundTrip(a, b);
    HourRangeRoundTrip(c, d);
  }

  /** `pat` occurs in `s` starting at position `p`. */
  predicate OccursAt(pat: string, s: string, p: int) {
    0 <= p && p + |pat| <= |s| && s[p..p + |pat|] == pat
  }

  /** `pat` occurs somewhere in `s`. */
  ghost predicate Occurs(pat: string, s: string) {
    exists p :: OccursAt(pat, s, p)
  }

  /** Left-to-right replacement of every non-overlapping occurrence of `pat`
      by `rep`, as Python's `str.replace(pat, rep)` does. */
  function ReplaceAll(s: string, pat: string, rep: string): string
    requires |pat| > 0
    decreases |s|
  {
    if |s| < |pat| then s
    else if s[..|pat|] == pat then rep + ReplaceAll(s[|pat|..], pat, rep)
    else [s[0]] + ReplaceAll(s[1..], pat, rep)
  }

  /** Replacing a pattern that does not occur leaves the string as it was. */
  lemma {:induction false} ReplaceAbsent(s: string, pat: string, rep: string)
    requires |pat| > 0 && !Occurs(pat, s)
    ensures ReplaceAll(s, pat, rep) == s
    decreases |s|
  {
    if |s| >= |pat| {
      assert s[0..0 + |pat|] == s[..|pat|];
      assert !OccursAt(pat, s, 0);
      var t := s[1..];
      forall p ensures !OccursAt(pat, t, p) {
        if 0 <= p && p + |pat| <= |t| {
          assert t[p..p + |pat|] == s[p + 1..p + 1 + |pat|];
          assert !OccursAt(pat, s, p + 1);
        }
      }
      ReplaceAbsent(t, pat, rep);
      assert [s[0]] + t == s;
    }
  }

  /** A range of two hours of the day (each below 24) never contains "24:00",
      so replacing "24:00" by "00:00" in it changes nothing. */
  lemma HourRangeHasNoDayEnd(a: nat, b: nat)
    requires a < 24 && b < 24
    ensures !Occurs("24:00", HourRange(a, b))
    ensures ReplaceAll(HourRange(a, b), "24:00", "00:00") == HourRange(a, b)
  {
    var s := HourRange(a, b);
    HourRangeRoundTrip(a, b);
    assert ParseDecimal("24") == 24 by {
      assert "24"[..1] == "2";
      assert "2"[..0] == [];
    }
    assert "24:00"[..2] == "24" && "24:00"[2] == ':';
    forall p ensures !OccursAt("24:00", s, p) {
      var w := if 0 <= p && p + 5 <= |s| then s[p..p + 5] else "";
      if p == 0 {
        assert w[..2] == s[..2] != "24";
      } else if p == 6 {
        assert w[..2] == s[6..8] != "24";
      } else if 0 < p && p + 5 <= |s| {
        assert w[2] == s[p + 2];
        assert s[3] == s[2..5][1] && s[4] == s[2..5][2];
        assert s[6] == s[6..8][0] && s[7] == s[6..8][1];
      }
    }
    ReplaceAbsent(s, "24:00", "00:00");
  }
}
