/**
  `time_format` of download_utils.py: a duration in seconds rendered as a
  six-character string. Python's `%` and `//` with the positive divisors used
  here agree with Dafny's `%` and `/` on every integer, negative ones included.
 */
module TimeFormat {
  import opened Text

  /** Two zero-padded decimal digits of `n`: the reference the branches are read against. */
  function TwoDigits(n: nat): string
    requires n < 100
  {
    [DigitChar(n / 10), DigitChar(n % 10)]
  }

  /** The numeric value of two digit characters. */
  function DigitValue(c: char): int {
    (c as int) - ('0' as int)
  }

  function TwoDigitValue(s: string): int
    requires |s| == 2
  {
    10 * DigitValue(s[0]) + DigitValue(s[1])
  }

  /** `'{}u'.format(n).zfill(3)` for `n < 100` is `n` on two digits followed by the unit. */
  lemma PaddedField(n: nat, unit: char)
    requires n < 100
    ensures ZFill(Decimal(n) + [unit], 3) == TwoDigits(n) + [unit]
  {
    if n < 10 {
      assert Decimal(n) == [DigitChar(n)];
      assert n / 10 == 0 && n % 10 == n;
    } else {
      assert Decimal(n / 10) == [DigitChar(n / 10)];
    }
  }

  /** The field `'{}u'.format(n).zfill(3)` of the source. */
  function Field(n: nat, unit: char): (r: string)
    requires n < 100
    ensures r == TwoDigits(n) + [unit]
  {
    PaddedField(n, unit);
    ZFill(Decimal(n) + [unit], 3)
  }

  /** `time_format(secs)`. The over-range literal is spelled "uknown", as in the source. */
  function Format(secs: int): (r: string)
    ensures |r| == 6
  {
    var s := Field(secs % 60, 's');
    if secs < 60 then RJust(s, 6)
    else
      var mins := secs / 60;
      var m := Field(mins % 60, '\'');
      if mins < 60 then RJust(m + s, 6)
      else
        var hours := mins / 60;
        var h := Field(hours % 24, 'h');
        if hours < 24 then RJust(h + m, 6)
        else if hours > 2 * 24 then "uknown"
        else RJust(Decimal(hours / 24) + "d" + h, 6)
  }

  /** Under a minute (negative inputs included): three spaces, the seconds on two digits, `s`. */
  lemma SecondsOnly(secs: int)
    requires secs < 60
    ensures Format(secs) == "   " + TwoDigits(secs % 60) + "s"
  {
    assert RJust(TwoDigits(secs % 60) + "s", 6) == Repeat(' ', 3) + TwoDigits(secs % 60) + "s";
  }

  /** From a minute up to an hour: minutes, `'`, seconds, `s`, each count on two digits. */
  lemma MinutesSeconds(secs: int)
    requires 60 <= secs < 3600
    ensures Format(secs) == TwoDigits((secs / 60) % 60) + "'" + TwoDigits(secs % 60) + "s"
  {
  }

  /** From an hour up to a day: hours, `h`, minutes, `'`; the seconds are dropped. */
  lemma HoursMinutes(secs: int)
    requires 3600 <= secs < 24 * 3600
    ensures Format(secs) == TwoDigits(secs / 3600) + "h" + TwoDigits((secs / 60) % 60) + "'"
  {
    var mins := secs / 60;
    var hours := mins / 60;
    HoursOfSeconds(secs);
    assert mins >= 60 && 1 <= hours < 24 && hours % 24 == hours;
    var text := Field(hours % 24, 'h') + Field(mins % 60, '\'');
    assert Format(secs) == RJust(text, 6);
    assert |text| == 6;
  }

  /** Dividing by 60 twice is dividing by 3600. */
  lemma HoursOfSeconds(secs: int)
    ensures secs / 60 / 60 == secs / 3600
  {
    var q, r := secs / 3600, secs % 3600;
    assert secs == 60 * (60 * q + r / 60) + r % 60;
    assert secs / 60 == 60 * q + r / 60;
  }

  /** From 24 to 48 whole hours: a space, the day count (1 or 2), `d`, the remaining hours, `h`. */
  lemma DaysHours(secs: int)
    requires 24 * 3600 <= secs < 49 * 3600
    ensures secs / 3600 / 24 == 1 || secs / 3600 / 24 == 2
    ensures Format(secs) == " " + [DigitChar(secs / 3600 / 24)] + "d" + TwoDigits((secs / 3600) % 24) + "h"
  {
    var hours := secs / 60 / 60;
    HoursOfSeconds(secs);
    assert Decimal(hours / 24) == [DigitChar(hours / 24)];
  }

  /** Beyond 48 whole hours the sentinel is returned. */
  lemma Unknown(secs: int)
    requires secs >= 49 * 3600
    ensures Format(secs) == "uknown"
  {
    HoursOfSeconds(secs);
  }

  /** Below an hour the last three characters are always the seconds field `secs % 60`. */
  lemma SecondsField(secs: int)
    requires secs < 3600
    ensures Format(secs)[3..] == TwoDigits(secs % 60) + "s"
  {
    if secs < 60 {
      SecondsOnly(secs);
    } else {
      MinutesSeconds(secs);
    }
  }

  /** Below an hour nothing is lost: the minutes and seconds read back from the text give `secs`. */
  lemma BelowAnHourReadsBack(secs: int)
    requires 60 <= secs < 3600
    ensures 60 * TwoDigitValue(Format(secs)[0..2]) + TwoDigitValue(Format(secs)[3..5]) == secs
  {
    var mm, ss := secs / 60, secs % 60;
    assert mm < 60 && mm % 60 == mm;
    assert secs == 60 * mm + ss;
    MinutesSeconds(secs);
    FieldsReadBack(mm, ss);
  }

  /** The text `mm'ss s` reads back as `60 * mm + ss`. */
  lemma FieldsReadBack(mm: nat, ss: nat)
    requires mm < 60 && ss < 60
    ensures var r := TwoDigits(mm) + "'" + TwoDigits(ss) + "s";
      60 * TwoDigitValue(r[0..2]) + TwoDigitValue(r[3..5]) == 60 * mm + ss
  {
    var r := TwoDigits(mm) + "'" + TwoDigits(ss) + "s";
    assert r[0..2] == TwoDigits(mm);
    assert r[3..5] == TwoDigits(ss);
    ReadTwoDigits(mm);
    ReadTwoDigits(ss);
  }

  lemma ReadTwoDigits(n: nat)
    requires n < 100
    ensures TwoDigitValue(TwoDigits(n)) == n
  {
    var d1, d0 := n / 10, n % 10;
    assert DigitValue(DigitChar(d1)) == d1 by {
      assert "0123456789"[d1] as int == '0' as int + d1;
    }
    assert DigitValue(DigitChar(d0)) == d0 by {
      assert "0123456789"[d0] as int == '0' as int + d0;
    }
  }
}
