/**
 * The names `DesktopDuplicator::generateTimestampedFilename` builds for saved
 * snapshots (src/graphics/desktop_duplicator.cpp:479-508):
 * `<prefix>_<YYYYMMDD_HHMMSS>_<ms, 3 digits>_<counter, 4 digits>.<extension>`.
 * The wall clock and `localtime_s` are not modelled: the calendar time and the
 * milliseconds since the epoch are parameters.
 */
module SnapshotNames {

  predicate IsDigit(c: char)
  {
    '0' <= c <= '9'
  }

  predicate AllDigits(s: string)
  {
    forall i | 0 <= i < |s| :: IsDigit(s[i])
  }

  function DigitChar(d: nat): (c: char)
    requires d < 10
    ensures IsDigit(c)
  {
    ('0' as int + d) as char
  }

  function DigitValue(c: char): nat
    requires IsDigit(c)
  {
    c as int - '0' as int
  }

  /** How `operator<<` prints a non-negative integer: decimal digits, most significant first. */
  function Digits(n: nat): (s: string)
    ensures 1 <= |s| && AllDigits(s)
    decreases n
  {
    if n < 10 then [DigitChar(n)] else Digits(n / 10) + [DigitChar(n % 10)]
  }

  /** The number a string of decimal digits denotes; leading zeros are allowed. */
  function Value(s: string): nat
    requires AllDigits(s)
  {
    if |s| == 0 then 0 else Value(s[..|s| - 1]) * 10 + DigitValue(s[|s| - 1])
  }

  lemma {:induction false} DigitsValue(n: nat)
    ensures Value(Digits(n)) == n
    decreases n
  {
    var s := Digits(n);
    if n >= 10 {
      DigitsValue(n / 10);
      assert s[..|s| - 1] == Digits(n / 10);
    } else {
      assert s[..0] == [];
    }
  }

  /** Only 0 is printed with a leading '0'. */
  lemma {:induction false} DigitsNoLeadingZero(n: nat)
    ensures Digits(n)[0] == '0' <==> n == 0
    decreases n
  {
    if n >= 10 {
      DigitsNoLeadingZero(n / 10);
    }
  }

  function Zeros(k: nat): (z: string)
    ensures |z| == k && AllDigits(z)
  {
    seq(k, _ => '0')
  }

  lemma {:induction false} ZerosValue(k: nat)
    ensures Value(Zeros(k)) == 0
  {
    if k > 0 {
      ZerosValue(k - 1);
      assert Zeros(k)[..k - 1] == Zeros(k - 1);
    }
  }

  /** Leading zeros do not change the value of a digit string. */
  lemma {:induction false} LeadingZerosValue(k: nat, s: string)
    requires AllDigits(s)
    ensures AllDigits(Zeros(k) + s)
    ensures Value(Zeros(k) + s) == Value(s)
    decreases |s|
  {
    var t := Zeros(k) + s;
    if |s| == 0 {
      assert t == Zeros(k);
      ZerosValue(k);
    } else {
      var init := s[..|s| - 1];
      LeadingZerosValue(k, init);
      assert t[..|t| - 1] == Zeros(k) + init;
    }
  }

  /** `std::setfill('0') << std::setw(width)`: pad on the left with '0' up to `width` characters. */
  function ZeroPad(s: string, width: nat): (r: string)
    ensures AllDigits(s) ==> AllDigits(r)
  {
    if |s| < width then Zeros(width - |s|) + s else s
  }

  /** Padding keeps the number and reaches at least `width` characters. */
  lemma PaddedDigits(n: nat, width: nat)
    ensures |ZeroPad(Digits(n), width)| == if |Digits(n)| < width then width else |Digits(n)|
    ensures Value(ZeroPad(Digits(n), width)) == n
  {
    DigitsValue(n);
    if |Digits(n)| < width {
      LeadingZerosValue(width - |Digits(n)|, Digits(n));
    }
  }

  /** Distinct numbers are printed as distinct padded strings. */
  lemma PaddedDigitsInjective(m: nat, n: nat, width: nat)
    requires ZeroPad(Digits(m), width) == ZeroPad(Digits(n), width)
    ensures m == n
  {
    PaddedDigits(m, width);
    PaddedDigits(n, width);
  }

  function Pow10(k: nat): nat
  {
    if k == 0 then 1 else 10 * Pow10(k - 1)
  }

  /** A number below 10^k has at most k digits. */
  lemma {:induction false} DigitsLength(n: nat, k: nat)
    requires 1 <= k && n < Pow10(k)
    ensures |Digits(n)| <= k
    decreases k
  {
    if n >= 10 {
      assert k >= 2;
      DigitsLength(n / 10, k - 1);
    }
  }

  /** A calendar time as `localtime_s` fills it in (the month counted from 1). */
  datatype LocalTime = LocalTime(year: nat, month: nat, day: nat, hour: nat, minute: nat, second: nat)

  predicate FourDigitYear(t: LocalTime)
  {
    1000 <= t.year < 10000 && t.month < 100 && t.day < 100 && t.hour < 100 && t.minute < 100 && t.second < 100
  }

  /** `std::put_time(&tm, "%Y%m%d_%H%M%S")`. */
  function Stamp(t: LocalTime): string
  {
    Digits(t.year) + ZeroPad(Digits(t.month), 2) + ZeroPad(Digits(t.day), 2) + "_"
    + ZeroPad(Digits(t.hour), 2) + ZeroPad(Digits(t.minute), 2) + ZeroPad(Digits(t.second), 2)
  }

  lemma PaddedLength(n: nat, width: nat)
    requires 1 <= width && n < Pow10(width)
    ensures |ZeroPad(Digits(n), width)| == width
  {
    DigitsLength(n, width);
  }

  /** Between years 1000 and 9999 every stamp has the same 15 characters. */
  lemma StampLength(t: LocalTime)
    requires FourDigitYear(t)
    ensures |Stamp(t)| == 15
  {
    DigitsLength(t.year, 4);
    DigitsLength(t.year / 10, 3);
    DigitsLength(t.year / 100, 2);
    assert |Digits(t.year)| == 4;
    PaddedLength(t.month, 2);
    PaddedLength(t.day, 2);
    PaddedLength(t.hour, 2);
    PaddedLength(t.minute, 2);
    PaddedLength(t.second, 2);
  }

  /** The whole name: prefix, stamp, milliseconds within the second, counter, extension. */
  function SnapshotName(prefix: string, stamp: string, epochMillis: nat, counter: nat, extension: string): string
  {
    prefix + "_" + stamp + "_" + ZeroPad(Digits(epochMillis % 1000), 3) + "_" + ZeroPad(Digits(counter), 4)
    + "." + extension
  }

  lemma SplitEqual(a1: string, b1: string, a2: string, b2: string)
    requires a1 + b1 == a2 + b2 && |a1| == |a2|
    ensures a1 == a2 && b1 == b2
  {
    assert a1 == (a1 + b1)[..|a1|];
    assert b1 == (a1 + b1)[|a1|..];
  }

  /** The name split at its separators, nested from the right. */
  lemma SnapshotNameParts(prefix: string, stamp: string, epochMillis: nat, counter: nat, extension: string)
    ensures var p := ZeroPad(Digits(epochMillis % 1000), 3);
      var q := ZeroPad(Digits(counter), 4);
      SnapshotName(prefix, stamp, epochMillis, counter, extension)
      == (prefix + "_") + (stamp + (("_" + p) + (("_" + q) + ("." + extension))))
  {
  }

  /**
   * Two names with the same prefix and extension and stamps of the same length are
   * equal only if stamp, milliseconds and counter are: the counter alone keeps the
   * names taken within one millisecond apart.
   */
  lemma SnapshotNameInjective(prefix: string, extension: string, s1: string, s2: string,
                              ms1: nat, ms2: nat, c1: nat, c2: nat)
    requires |s1| == |s2|
    requires SnapshotName(prefix, s1, ms1, c1, extension) == SnapshotName(prefix, s2, ms2, c2, extension)
    ensures s1 == s2 && ms1 % 1000 == ms2 % 1000 && c1 == c2
  {
    var p1, p2 := ZeroPad(Digits(ms1 % 1000), 3), ZeroPad(Digits(ms2 % 1000), 3);
    var q1, q2 := ZeroPad(Digits(c1), 4), ZeroPad(Digits(c2), 4);
    SnapshotNameParts(prefix, s1, ms1, c1, extension);
    SnapshotNameParts(prefix, s2, ms2, c2, extension);
    var tail := "." + extension;
    SplitEqual(prefix + "_", s1 + (("_" + p1) + (("_" + q1) + tail)), prefix + "_", s2 + (("_" + p2) + (("_" + q2) + tail)));
    SplitEqual(s1, ("_" + p1) + (("_" + q1) + tail), s2, ("_" + p2) + (("_" + q2) + tail));
    PaddedLength(ms1 % 1000, 3);
    PaddedLength(ms2 % 1000, 3);
    SplitEqual("_" + p1, ("_" + q1) + tail, "_" + p2, ("_" + q2) + tail);
    assert p1 == ("_" + p1)[1..] == ("_" + p2)[1..] == p2;
    PaddedDigitsInjective(ms1 % 1000, ms2 % 1000, 3);
    SplitEqual("_" + q1, tail, "_" + q2, tail);
    assert q1 == ("_" + q1)[1..] == ("_" + q2)[1..] == q2;
    PaddedDigitsInjective(c1, c2, 4);
  }

  /** Line 211: the companion text file drops the last four characters and appends ".txt". */
  function ReasonFileName(name: string): string
  {
    (if |name| >= 4 then name[..|name| - 4] else name) + ".txt"
  }

  /** The reason file of a ".bmp" snapshot has the snapshot's name with extension "txt". */
  lemma ReasonFileNameOfSnapshot(prefix: string, stamp: string, epochMillis: nat, counter: nat)
    ensures ReasonFileName(SnapshotName(prefix, stamp, epochMillis, counter, "bmp"))
         == SnapshotName(prefix, stamp, epochMillis, counter, "txt")
  {
    var stem := prefix + "_" + stamp + "_" + ZeroPad(Digits(epochMillis % 1000), 3) + "_" + ZeroPad(Digits(counter), 4);
    assert SnapshotName(prefix, stamp, epochMillis, counter, "bmp") == stem + ".bmp";
    assert (stem + ".bmp")[..|stem|] == stem;
  }
}
