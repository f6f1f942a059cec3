/**
 * The two text helpers of src/track_analytics/output.py that carry logic:
 * the duration formatter (`_format_duration`, an integer `divmod` into
 * hours, minutes and seconds) and the fixed-width comparison row
 * (`_format_row`). A duration is a whole number of seconds.
 */
module Output {
  import opened Wrappers

  // ---------------------------------------------------------------------
  // Decimal digits
  // ---------------------------------------------------------------------

  predicate IsDigit(c: char) {
    '0' <= c <= '9'
  }

  function DigitChar(n: nat): (c: char)
    requires n < 10
    ensures IsDigit(c)
  {
    "0123456789"[n]
  }

  function DigitValue(c: char): (n: nat)
    requires IsDigit(c)
    ensures n < 10
  {
    (c as int - '0' as int) as nat
  }

  lemma DigitRoundTrip(n: nat)
    requires n < 10
    ensures DigitValue(DigitChar(n)) == n
  {
    assert "0123456789"[n] as int == '0' as int + n;
  }

  /** A non-negative integer in decimal, without leading zeros. */
  function NatToString(n: nat): (s: string)
    ensures |s| >= 1
    ensures forall i :: 0 <= i < |s| ==> IsDigit(s[i])
    ensures n > 0 ==> s[0] != '0'
    ensures n < 10 ==> |s| == 1
    ensures n >= 10 ==> |s| >= 2
  {
    if n < 10 then [DigitChar(n)] else NatToString(n / 10) + [DigitChar(n % 10)]
  }

  /** The value of a string of decimal digits. */
  function ParseNat(s: string): nat
    requires forall i :: 0 <= i < |s| ==> IsDigit(s[i])
  {
    if s == [] then 0 else ParseNat(s[..|s| - 1]) * 10 + DigitValue(s[|s| - 1])
  }

  /** Reading the digits back gives the number. */
  lemma {:induction false} ParseNatToString(n: nat)
    ensures ParseNat(NatToString(n)) == n
  {
    var s := NatToString(n);
    if n < 10 {
      DigitRoundTrip(n);
      assert s[..0] == [];
    } else {
      ParseNatToString(n / 10);
      DigitRoundTrip(n % 10);
      assert s[..|s| - 1] == NatToString(n / 10);
    }
  }

  /** Two decimal digits for `0 <= n < 100`: a leading zero below 10. */
  function ZeroPad2(n: nat): (s: string)
    requires n < 100
    ensures |s| == 2 && IsDigit(s[0]) && IsDigit(s[1])
  {
    if n < 10 then "0" + NatToString(n) else NatToString(n)
  }

  lemma ParseZeroPad2(n: nat)
    requires n < 100
    ensures ParseNat(ZeroPad2(n)) == n
  {
    ParseNatToString(n);
    if n < 10 {
      var s := ZeroPad2(n);
      assert s[..1] == "0" && s[..1][..0] == [];
      assert s[1] == NatToString(n)[0];
      assert [s[1]] == NatToString(n) && [s[1]][..0] == [];
    }
  }

  // ---------------------------------------------------------------------
  // Durations
  // ---------------------------------------------------------------------

  datatype Hms = Hms(hours: int, minutes: nat, seconds: nat)

  /**
   * Whole hours, then whole minutes of what is left, then the remaining
   * seconds. With a positive divisor Python's `divmod` rounds toward
   * negative infinity, as Dafny's `/` and `%` do.
   */
  function Decompose(total: int): (t: Hms)
    ensures t.hours * 3600 + t.minutes * 60 + t.seconds == total
    ensures t.minutes < 60 && t.seconds < 60
    ensures total >= 0 ==> t.hours >= 0
  {
    var hours := total / 3600;
    var remainder := total % 3600;
    Hms(hours, remainder / 60, remainder % 60)
  }

  /** The decomposition is the only one with minutes and seconds below 60. */
  lemma DecomposeUnique(total: int, h: int, m: int, s: int)
    requires h * 3600 + m * 60 + s == total
    requires 0 <= m < 60 && 0 <= s < 60
    ensures Decompose(total) == Hms(h, m, s)
  {
    var r := Decompose(total);
    assert 0 <= m * 60 + s < 3600;
    assert 0 <= r.minutes * 60 + r.seconds < 3600;
    assert (h - r.hours) * 3600 == r.minutes * 60 + r.seconds - (m * 60 + s);
    assert h == r.hours;
    assert m * 60 + s == r.minutes * 60 + r.seconds;
  }

  /** A space, two digits and the unit letter. */
  function PaddedField(n: nat, unit: char): (s: string)
    requires n < 100
    ensures |s| == 4 && s[3] == unit
  {
    " " + ZeroPad2(n) + [unit]
  }

  /** `_format_duration`: a leading number, and the text always ends in the seconds unit. */
  function FormatDuration(totalSeconds: int): (s: string)
    ensures |s| >= 2 && IsDigit(s[0]) && s[|s| - 1] == 's'
  {
    FormatHms(Decompose(totalSeconds))
  }

  /**
   * The three layouts of `_format_duration`: hours, padded minutes and padded
   * seconds; or minutes and padded seconds; or seconds alone.
   */
  function FormatHms(t: Hms): (s: string)
    requires t.minutes < 60 && t.seconds < 60
    ensures |s| >= 2 && IsDigit(s[0]) && s[|s| - 1] == 's'
  {
    if t.hours > 0 then NatToString(t.hours) + "h" + PaddedField(t.minutes, 'm') + PaddedField(t.seconds, 's')
    else if t.minutes > 0 then NatToString(t.minutes) + "m" + PaddedField(t.seconds, 's')
    else NatToString(t.seconds) + "s"
  }

  /** The number of leading decimal digits of `s`. */
  function DigitRun(s: string): (k: nat)
    ensures k <= |s|
    ensures forall i :: 0 <= i < k ==> IsDigit(s[i])
    ensures k < |s| ==> !IsDigit(s[k])
  {
    if s == [] || !IsDigit(s[0]) then 0 else 1 + DigitRun(s[1..])
  }

  lemma {:induction false} DigitRunOf(digits: string, rest: string)
    requires forall i :: 0 <= i < |digits| ==> IsDigit(digits[i])
    requires rest != [] && !IsDigit(rest[0])
    ensures DigitRun(digits + rest) == |digits|
  {
    if digits != [] {
      assert (digits + rest)[1..] == digits[1..] + rest;
      DigitRunOf(digits[1..], rest);
    } else {
      assert digits + rest == rest;
    }
  }

  /** Reads `" DD<unit>"`: a space, two digits and the unit letter. */
  function Field(s: string, unit: char): Option<nat> {
    if |s| == 4 && s[0] == ' ' && IsDigit(s[1]) && IsDigit(s[2]) && s[3] == unit then Some(ParseNat(s[1..3]))
    else None
  }

  lemma ReadField(n: nat, unit: char)
    requires n < 100
    ensures Field(PaddedField(n, unit), unit) == Some(n)
  {
    var s := PaddedField(n, unit);
    assert s[1..3] == ZeroPad2(n);
    ParseZeroPad2(n);
  }

  /** Reads back a duration written in one of the three layouts of `_format_duration`. */
  function ParseDuration(s: string): Option<int> {
    var k := DigitRun(s);
    if k == 0 || k == |s| then None
    else ParseAfterLead(ParseNat(s[..k]), s[k], s[k + 1..])
  }

  /** The rest of a duration after its leading number and that number's unit letter. */
  function ParseAfterLead(lead: nat, unit: char, rest: string): Option<int> {
    if unit == 's' && rest == [] then Some(lead)
    else if unit == 'm' && Field(rest, 's').Some? then Some(lead * 60 + Field(rest, 's').value)
    else if unit == 'h' && |rest| == 8 && Field(rest[..4], 'm').Some? && Field(rest[4..], 's').Some? then
      Some(lead * 3600 + Field(rest[..4], 'm').value * 60 + Field(rest[4..], 's').value)
    else None
  }

  /** Splitting a number's digits from the unit letter and what follows. */
  lemma SplitLead(n: nat, unit: char, rest: string)
    requires !IsDigit(unit)
    ensures DigitRun(NatToString(n) + [unit] + rest) == |NatToString(n)|
    ensures ParseDuration(NatToString(n) + [unit] + rest) == ParseAfterLead(n, unit, rest)
  {
    var lead := NatToString(n);
    var f := lead + [unit] + rest;
    assert f == lead + ([unit] + rest);
    DigitRunOf(lead, [unit] + rest);
    assert f[..|lead|] == lead && f[|lead|] == unit && f[|lead| + 1..] == rest;
    ParseNatToString(n);
  }

  /** Every non-negative duration is formatted so that it reads back exactly. */
  lemma FormatDurationRoundTrip(totalSeconds: int)
    requires totalSeconds >= 0
    ensures ParseDuration(FormatDuration(totalSeconds)) == Some(totalSeconds)
  {
    FormatHmsRoundTrip(Decompose(totalSeconds));
  }

  lemma FormatHmsRoundTrip(t: Hms)
    requires t.hours >= 0 && t.minutes < 60 && t.seconds < 60
    ensures ParseDuration(FormatHms(t)) == Some(t.hours * 3600 + t.minutes * 60 + t.seconds)
  {
    if t.hours > 0 {
      HoursRoundTrip(t);
    } else if t.minutes > 0 {
      MinutesRoundTrip(t);
    } else {
      SecondsRoundTrip(t);
    }
  }

  lemma HoursRoundTrip(t: Hms)
    requires t.hours > 0 && t.minutes < 60 && t.seconds < 60
    ensures ParseDuration(FormatHms(t)) == Some(t.hours * 3600 + t.minutes * 60 + t.seconds)
  {
    var h: nat := t.hours;
    assert FormatHms(t) == NatToString(h) + "h" + PaddedField(t.minutes, 'm') + PaddedField(t.seconds, 's');
    ReadHours(h, t.minutes, t.seconds);
  }

  lemma MinutesRoundTrip(t: Hms)
    requires t.hours == 0 && 0 < t.minutes < 60 && t.seconds < 60
    ensures ParseDuration(FormatHms(t)) == Some(t.minutes * 60 + t.seconds)
  {
    ReadMinutes(t.minutes, t.seconds);
  }

  lemma SecondsRoundTrip(t: Hms)
    requires t.hours == 0 && t.minutes == 0 && t.seconds < 60
    ensures ParseDuration(FormatHms(t)) == Some(t.seconds)
  {
    ReadSeconds(t.seconds);
  }

  lemma ReadHours(h: nat, m: nat, s: nat)
    requires h > 0 && m < 60 && s < 60
    ensures ParseDuration(NatToString(h) + "h" + PaddedField(m, 'm') + PaddedField(s, 's')) == Some(h * 3600 + m * 60 + s)
  {
    var minutes := PaddedField(m, 'm');
    var seconds := PaddedField(s, 's');
    assert NatToString(h) + "h" + minutes + seconds == NatToString(h) + "h" + (minutes + seconds);
    SplitLead(h, 'h', minutes + seconds);
    ReadField(m, 'm');
    ReadField(s, 's');
    AfterHours(h, minutes, seconds, m, s);
  }

  lemma AfterHours(lead: nat, minutes: string, seconds: string, m: nat, s: nat)
    requires Field(minutes, 'm') == Some(m) && Field(seconds, 's') == Some(s)
    ensures ParseAfterLead(lead, 'h', minutes + seconds) == Some(lead * 3600 + m * 60 + s)
  {
    assert (minutes + seconds)[..4] == minutes && (minutes + seconds)[4..] == seconds;
  }

  lemma ReadMinutes(m: nat, s: nat)
    requires m > 0 && s < 60
    ensures ParseDuration(NatToString(m) + "m" + PaddedField(s, 's')) == Some(m * 60 + s)
  {
    SplitLead(m, 'm', PaddedField(s, 's'));
    ReadField(s, 's');
  }

  lemma ReadSeconds(s: nat)
    ensures ParseDuration(NatToString(s) + "s") == Some(s)
  {
    assert NatToString(s) + "s" == NatToString(s) + "s" + [];
    SplitLead(s, 's', []);
  }

  /** Distinct non-negative durations are formatted differently. */
  lemma FormatDurationInjective(a: int, b: int)
    requires a >= 0 && b >= 0 && FormatDuration(a) == FormatDuration(b)
    ensures a == b
  {
    FormatDurationRoundTrip(a);
    FormatDurationRoundTrip(b);
  }

  /** The unit of the first field: hours from an hour up, minutes from a minute up, else seconds. */
  lemma FormatDurationLayout(totalSeconds: int)
    requires totalSeconds >= 0
    ensures var f := FormatDuration(totalSeconds);
      var k := DigitRun(f);
      && k < |f|
      && (f[k] == 'h' <==> totalSeconds >= 3600)
      && (f[k] == 'm' <==> 60 <= totalSeconds < 3600)
      && (f[k] == 's' <==> totalSeconds < 60)
      && (totalSeconds >= 3600 ==> |f| == k + 9)
      && (60 <= totalSeconds < 3600 ==> |f| == k + 5)
      && (totalSeconds < 60 ==> |f| == k + 1)
  {
    var t := Decompose(totalSeconds);
    HmsLayout(t);
    HmsRanges(t, totalSeconds);
  }

  lemma HmsRanges(t: Hms, total: int)
    requires t.hours * 3600 + t.minutes * 60 + t.seconds == total
    requires t.hours >= 0 && t.minutes < 60 && t.seconds < 60
    ensures t.hours > 0 <==> total >= 3600
    ensures t.hours == 0 && t.minutes > 0 <==> 60 <= total < 3600
    ensures t.hours == 0 && t.minutes == 0 <==> total < 60
  {
  }

  lemma HmsLayout(t: Hms)
    requires t.hours >= 0 && t.minutes < 60 && t.seconds < 60
    ensures var f := FormatHms(t);
      var k := DigitRun(f);
      && k < |f|
      && (f[k] == 'h' <==> t.hours > 0)
      && (f[k] == 'm' <==> t.hours == 0 && t.minutes > 0)
      && (f[k] == 's' <==> t.hours == 0 && t.minutes == 0)
      && (t.hours > 0 ==> |f| == k + 9)
      && (t.hours == 0 && t.minutes > 0 ==> |f| == k + 5)
      && (t.hours == 0 && t.minutes == 0 ==> |f| == k + 1)
  {
    var f := FormatHms(t);
    if t.hours > 0 {
      var rest := PaddedField(t.minutes, 'm') + PaddedField(t.seconds, 's');
      assert f == NatToString(t.hours) + "h" + rest;
      SplitLead(t.hours, 'h', rest);
    } else if t.minutes > 0 {
      SplitLead(t.minutes, 'm', PaddedField(t.seconds, 's'));
    } else {
      assert f == NatToString(t.seconds) + "s" + [];
      SplitLead(t.seconds, 's', []);
    }
  }

  // ---------------------------------------------------------------------
  // Comparison rows
  // ---------------------------------------------------------------------

  function Spaces(n: nat): (s: string)
    ensures |s| == n && forall i :: 0 <= i < n ==> s[i] == ' '
  {
    if n == 0 then "" else Spaces(n - 1) + " "
  }

  function Max(a: nat, b: nat): nat {
    if a >= b then a else b
  }

  /** Left justification: `s` followed by spaces up to `width`; a longer `s` is kept whole. */
  function LeftJustify(s: string, width: nat): (r: string)
    ensures |r| == Max(width, |s|)
    ensures r[..|s|] == s
    ensures forall i :: |s| <= i < |r| ==> r[i] == ' '
  {
    if |s| >= width then s else s + Spaces(width - |s|)
  }

  /** Right justification: spaces up to `width` followed by `s`; a longer `s` is kept whole. */
  function RightJustify(s: string, width: nat): (r: string)
    ensures |r| == Max(width, |s|)
    ensures r[|r| - |s|..] == s
    ensures forall i :: 0 <= i < |r| - |s| ==> r[i] == ' '
  {
    if |s| >= width then s else Spaces(width - |s|) + s
  }

  const LabelWidth: nat := 24
  const ValueWidth: nat := 14

  /**
   * `_format_row`: two spaces, the title column and three value columns, so
   * at least 71 characters. The source calls the first parameter `label`,
   * which is a keyword in Dafny.
   */
  function FormatRow(title: string, val1: string, val2: string, diff: string := ""): (r: string)
    ensures |r| >= 5 + LabelWidth + 3 * ValueWidth
    ensures r[..2] == "  "
  {
    "  " + LeftJustify(title, LabelWidth) + " " + RightJustify(val1, ValueWidth)
      + " " + RightJustify(val2, ValueWidth) + " " + RightJustify(diff, ValueWidth)
  }

  /** A row is as long as its widened fields, two leading spaces and three separators. */
  lemma FormatRowLength(title: string, val1: string, val2: string, diff: string)
    ensures |FormatRow(title, val1, val2, diff)|
      == 5 + Max(LabelWidth, |title|) + Max(ValueWidth, |val1|) + Max(ValueWidth, |val2|) + Max(ValueWidth, |diff|)
  {
  }

  /**
   * The columns of a row: two spaces, the title column (24 wide when the
   * title fits) and the three value columns (14 wide when the value fits),
   * each preceded by one space.
   */
  lemma FormatRowColumns(title: string, val1: string, val2: string, diff: string)
    requires |title| <= LabelWidth && |val1| <= ValueWidth && |val2| <= ValueWidth && |diff| <= ValueWidth
    ensures var r := FormatRow(title, val1, val2, diff);
      && |r| == 71
      && r[..2] == "  " && r[26] == ' ' && r[41] == ' ' && r[56] == ' '
      && r[2..26] == LeftJustify(title, LabelWidth)
      && r[27..41] == RightJustify(val1, ValueWidth)
      && r[42..56] == RightJustify(val2, ValueWidth)
      && r[57..] == RightJustify(diff, ValueWidth)
  {
    var a := LeftJustify(title, LabelWidth);
    var b := RightJustify(val1, ValueWidth);
    var c := RightJustify(val2, ValueWidth);
    var e := RightJustify(diff, ValueWidth);
    var r := FormatRow(title, val1, val2, diff);
    var r1 := "  " + a;
    var r2 := r1 + " " + b;
    var r3 := r2 + " " + c;
    assert r == r3 + " " + e;
    assert r[57..] == e && r[..56] == r3;
    assert r3[42..] == c && r3[..41] == r2 && r[42..56] == r3[42..];
    assert r2[27..] == b && r2[..26] == r1 && r[27..41] == r2[27..];
    assert r1[2..] == a && r1[..2] == "  " && r[2..26] == r1[2..];
  }

  /**
   * When every field fits, the title starts at column 2 and the values end
   * at columns 41, 56 and 71 (the row is 71 characters long).
   */
  lemma FormatRowFields(title: string, val1: string, val2: string, diff: string)
    requires |title| <= LabelWidth && |val1| <= ValueWidth && |val2| <= ValueWidth && |diff| <= ValueWidth
    ensures var r := FormatRow(title, val1, val2, diff);
      && |r| == 71
      && r[2..2 + |title|] == title
      && r[41 - |val1|..41] == val1
      && r[56 - |val2|..56] == val2
      && r[71 - |diff|..] == diff
  {
    FormatRowColumns(title, val1, val2, diff);
    var r := FormatRow(title, val1, val2, diff);
    assert r[2..2 + |title|] == r[2..26][..|title|];
    assert r[41 - |val1|..41] == r[27..41][14 - |val1|..];
    assert r[56 - |val2|..56] == r[42..56][14 - |val2|..];
    assert r[71 - |diff|..] == r[57..][14 - |diff|..];
  }
}
