/**
 * The time label of the egg timer: `updateTimeLabel` renders the remaining
 * time as `String(format: "%02d:%02d", minutes, seconds)` where
 * `minutes = Int(remainingTime) / 60` and `seconds = Int(remainingTime) % 60`.
 *
 * Time is measured in whole tenths of a second, so `Int(remainingTime)`
 * (truncation of a non-negative number of seconds) is `tenths / 10`.
 * `ParseLabel` reads a label back; it is the partner against which the
 * formatting is proved.
 */
module TimeLabel {
  import opened Wrappers

  const TenthsPerSecond: nat := 10
  const SecondsPerMinute: nat := 60

  predicate IsDigit(c: char) {
    '0' <= c <= '9'
  }

  predicate AllDigits(s: string) {
    forall i :: 0 <= i < |s| ==> IsDigit(s[i])
  }

  function DigitValue(c: char): (d: nat)
    requires IsDigit(c)
    ensures d < 10
  {
    c as int - '0' as int
  }

  function DigitChar(d: nat): (c: char)
    requires d < 10
    ensures IsDigit(c) && DigitValue(c) == d
  {
    ('0' as int + d) as char
  }

  /** The decimal numeral of `n` as `%d` prints it: no sign, no leading zero. */
  function Decimal(n: nat): (s: string)
    ensures |s| >= 1 && AllDigits(s)
    ensures |s| == 1 <==> n < 10
    ensures s[0] == '0' ==> n == 0
    decreases n
  {
    if n < 10 then [DigitChar(n)] else Decimal(n / 10) + [DigitChar(n % 10)]
  }

  /** The number a string of decimal digits denotes (leading zeros allowed). */
  function Value(s: string): (n: nat)
    requires AllDigits(s)
    decreases |s|
  {
    if s == [] then 0 else Value(s[..|s| - 1]) * 10 + DigitValue(s[|s| - 1])
  }

  lemma {:induction false} ValueOfDecimal(n: nat)
    ensures Value(Decimal(n)) == n
    decreases n
  {
    if n >= 10 {
      var s := Decimal(n);
      assert s[..|s| - 1] == Decimal(n / 10);
      ValueOfDecimal(n / 10);
    }
  }

  /** `%02d`: the numeral of `n`, left-padded with zeros to at least two digits. */
  function Pad2(n: nat): (s: string)
    ensures AllDigits(s) && |s| >= 2
    ensures |s| == 2 <==> n < 100
    ensures s[0] == '0' ==> n < 10
  {
    if n < 10 then "0" + Decimal(n) else Decimal(n)
  }

  lemma Pad2Value(n: nat)
    ensures Value(Pad2(n)) == n
  {
    if n < 10 {
      var s := Pad2(n);
      assert s[..1] == "0";
      assert Value(s[..1]) == 0;
    } else {
      ValueOfDecimal(n);
    }
  }

  /** The label for `tenths` tenths of a second remaining. */
  function Format(tenths: nat): (s: string)
    ensures |s| >= 5 && s[|s| - 3] == ':'
    ensures AllDigits(s[..|s| - 3]) && AllDigits(s[|s| - 2..])
  {
    var whole := tenths / TenthsPerSecond;
    Pad2(whole / SecondsPerMinute) + ":" + Pad2(whole % SecondsPerMinute)
  }

  /** What a label displays: a minutes field and a seconds field. */
  datatype Clock = Clock(minutes: nat, seconds: nat)

  /** Reads a label of the form `<digits>:<two digits>`, or fails. */
  function ParseLabel(s: string): (r: Option<Clock>)
    ensures r.Some? <==> |s| >= 5 && s[|s| - 3] == ':' && AllDigits(s[..|s| - 3]) && AllDigits(s[|s| - 2..])
  {
    if |s| >= 5 && s[|s| - 3] == ':' && AllDigits(s[..|s| - 3]) && AllDigits(s[|s| - 2..]) then
      Some(Clock(Value(s[..|s| - 3]), Value(s[|s| - 2..])))
    else
      None
  }

  /**
   * The label shows exactly the truncated number of whole seconds, split
   * into minutes and a seconds field below 60.
   */
  lemma FormatMeaning(tenths: nat)
    ensures ParseLabel(Format(tenths)).Some?
    ensures var c := ParseLabel(Format(tenths)).value;
            c.seconds < SecondsPerMinute &&
            c.minutes * SecondsPerMinute + c.seconds == tenths / TenthsPerSecond
  {
    var whole := tenths / TenthsPerSecond;
    var m, sec := Pad2(whole / SecondsPerMinute), Pad2(whole % SecondsPerMinute);
    var s := Format(tenths);
    assert s == m + ":" + sec;
    assert s[..|s| - 3] == m;
    assert s[|s| - 2..] == sec;
    Pad2Value(whole / SecondsPerMinute);
    Pad2Value(whole % SecondsPerMinute);
  }

  /** A two-digit field is printed back unchanged by `%02d`. */
  lemma Pad2OfTwoDigits(t: string)
    requires |t| == 2 && AllDigits(t)
    ensures Pad2(Value(t)) == t
  {
    var hi, lo := DigitValue(t[0]), DigitValue(t[1]);
    assert t[..1][..0] == [];
    assert Value(t[..1]) == hi;
    assert Value(t) == hi * 10 + lo;
    if hi == 0 {
      assert Pad2(Value(t)) == ['0', DigitChar(lo)];
    } else {
      var v := hi * 10 + lo;
      assert v / 10 == hi && v % 10 == lo;
      assert Decimal(v) == Decimal(hi) + [DigitChar(lo)];
    }
  }

  /** The label for `minutes` minutes and `seconds` seconds (below 60) remaining. */
  lemma FormatOfClock(minutes: nat, seconds: nat)
    requires seconds < SecondsPerMinute
    ensures Format((minutes * SecondsPerMinute + seconds) * TenthsPerSecond) ==
            Pad2(minutes) + ":" + Pad2(seconds)
  {
    var whole := minutes * SecondsPerMinute + seconds;
    assert (whole * TenthsPerSecond) / TenthsPerSecond == whole;
    assert whole / SecondsPerMinute == minutes && whole % SecondsPerMinute == seconds by {
      assert whole == SecondsPerMinute * minutes + seconds && 0 <= seconds < SecondsPerMinute;
    }
  }

  /**
   * Every five-character label whose seconds field is below 60 is the label
   * printed for that many minutes and seconds remaining.
   */
  lemma FormatOnto(s: string)
    requires ParseLabel(s).Some? && |s| == 5
    requires ParseLabel(s).value.seconds < SecondsPerMinute
    ensures var c := ParseLabel(s).value;
            Format((c.minutes * SecondsPerMinute + c.seconds) * TenthsPerSecond) == s
  {
    var c := ParseLabel(s).value;
    var mm, ss := s[..2], s[3..];
    assert s[..|s| - 3] == mm && s[|s| - 2..] == ss;
    FormatOfClock(c.minutes, c.seconds);
    Pad2OfTwoDigits(mm);
    Pad2OfTwoDigits(ss);
    assert s == mm + ":" + ss;
  }

  /** Two remaining times get the same label exactly when they agree in whole seconds. */
  lemma FormatSameLabel(a: nat, b: nat)
    ensures Format(a) == Format(b) <==> a / TenthsPerSecond == b / TenthsPerSecond
  {
    if Format(a) == Format(b) {
      FormatMeaning(a);
      FormatMeaning(b);
    }
  }

  /** Up to 99:59 the label has exactly the five characters `MM:SS`. */
  lemma FormatWidth(tenths: nat)
    requires tenths / TenthsPerSecond < 100 * SecondsPerMinute
    ensures |Format(tenths)| == 5
  {
  }

  /** For any time up to the longest preset (720 s) the minutes field is at most 12. */
  lemma PresetRangeMinutes(tenths: nat)
    requires tenths <= 720 * TenthsPerSecond
    ensures |Format(tenths)| == 5
    ensures ParseLabel(Format(tenths)).Some? && ParseLabel(Format(tenths)).value.minutes <= 12
  {
    FormatWidth(tenths);
    FormatMeaning(tenths);
  }

  /** Under one second remaining the label reads "00:00". */
  lemma FormatUnderOneSecond(tenths: nat)
    requires tenths < TenthsPerSecond
    ensures Format(tenths) == "00:00"
  {
    assert Pad2(0) == "00";
  }

  /** The soft preset, 300 s, shows "05:00". */
  lemma FormatSoft()
    ensures Format(3000) == "05:00"
  {
    assert Pad2(5) == "05" && Pad2(0) == "00";
  }

  /** The medium preset, 420 s, shows "07:00". */
  lemma FormatMedium()
    ensures Format(4200) == "07:00"
  {
    assert Pad2(7) == "07" && Pad2(0) == "00";
  }

  /** The hard preset, 720 s, shows "12:00". */
  lemma FormatHard()
    ensures Format(7200) == "12:00"
  {
    assert Decimal(12) == Decimal(1) + ['2'];
    assert Pad2(12) == "12" && Pad2(0) == "00";
  }

  /** 65 s shows "01:05". */
  lemma FormatSixtyFive()
    ensures Format(650) == "01:05"
  {
    assert Pad2(1) == "01" && Pad2(5) == "05";
  }

  /** The labels of the three presets and of a few other times. */
  lemma FormatExamples()
    ensures Format(3000) == "05:00"
    ensures Format(4200) == "07:00"
    ensures Format(7200) == "12:00"
    ensures Format(650) == "01:05"
    ensures Format(1) == "00:00"
    ensures Format(0) == "00:00"
  {
    FormatSoft();
    FormatMedium();
    FormatHard();
    FormatSixtyFive();
    FormatUnderOneSecond(1);
    FormatUnderOneSecond(0);
  }
}
