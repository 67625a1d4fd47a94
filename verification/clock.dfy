/** The countdown as the user reads it: `formatTime` renders a number of
    seconds as minutes, a colon and two digits of seconds. */
module Clock {

  datatype Option<T> = None | Some(value: T)

  /** The character of decimal digit `d`. */
  function DigitChar(d: nat): (c: char)
    requires d < 10
    ensures '0' <= c <= '9' && c as int - '0' as int == d
  {
    (48 + d) as char
  }

  /** The value of a decimal digit character. */
  function DigitValue(c: char): nat
    requires '0' <= c <= '9'
  {
    c as int - '0' as int
  }

  predicate IsDigits(s: string) {
    forall i :: 0 <= i < |s| ==> '0' <= s[i] <= '9'
  }

  /** How JavaScript prints a non-negative integer below 10^21: its decimal
      digits, with no leading zero unless the number is 0 itself. (From
      10^21 up JavaScript switches to exponent notation, which is not
      modelled.) */
  function Decimal(n: nat): (r: string)
    ensures 1 <= |r| && IsDigits(r)
    ensures |r| == 1 <==> n < 10
    ensures |r| > 1 ==> r[0] != '0'
  {
    if n < 10 then [DigitChar(n)] else Decimal(n / 10) + [DigitChar(n % 10)]
  }

  /** The number a string of decimal digits denotes. */
  function DigitsValue(s: string): nat
    requires IsDigits(s)
  {
    if s == [] then 0 else DigitsValue(s[..|s| - 1]) * 10 + DigitValue(s[|s| - 1])
  }

  /** Reading the printed digits of `n` gives back `n`. */
  lemma {:induction false} DecimalRoundTrip(n: nat)
    ensures DigitsValue(Decimal(n)) == n
  {
    if n >= 10 {
      DecimalRoundTrip(n / 10);
      var r := Decimal(n);
      assert r[..|r| - 1] == Decimal(n / 10);
    }
  }

  /** formatTime: whole minutes unpadded, a colon, then the remaining seconds
      as exactly two digits. For a non-negative count, JavaScript's
      `Math.floor(t / 60)` and `t % 60` agree with Dafny's `/` and `%`. */
  function FormatTime(totalSeconds: int): (r: string)
    requires totalSeconds >= 0
    ensures r == Decimal(totalSeconds / 60) + ":"
                 + [DigitChar(totalSeconds % 60 / 10), DigitChar(totalSeconds % 60 % 10)]
  {
    var minutes := totalSeconds / 60;
    var seconds := totalSeconds % 60;
    assert seconds >= 10 ==> Decimal(seconds) == Decimal(seconds / 10) + [DigitChar(seconds % 10)];
    Decimal(minutes) + ":" + (if seconds < 10 then "0" else "") + Decimal(seconds)
  }

  /** Reads an "M:SS" display back into a number of seconds: digits, a colon,
      and two digits that make less than 60. */
  function ParseTime(s: string): Option<nat> {
    if |s| >= 4 && s[|s| - 3] == ':' && IsDigits(s[..|s| - 3]) && IsDigits(s[|s| - 2..])
       && DigitsValue(s[|s| - 2..]) < 60
    then Some(DigitsValue(s[..|s| - 3]) * 60 + DigitsValue(s[|s| - 2..]))
    else None
  }

  /** The display of a count of seconds determines the count. */
  lemma FormatTimeRoundTrip(totalSeconds: nat)
    ensures ParseTime(FormatTime(totalSeconds)) == Some(totalSeconds)
  {
    var r := FormatTime(totalSeconds);
    var m := Decimal(totalSeconds / 60);
    var ss := r[|r| - 2..];
    assert r[..|r| - 3] == m;
    assert r[|r| - 3] == ':';
    DecimalRoundTrip(totalSeconds / 60);
    var sec := totalSeconds % 60;
    assert ss == [DigitChar(sec / 10), DigitChar(sec % 10)];
    assert ss[..1] == [DigitChar(sec / 10)] && ss[..1][..0] == [];
    assert DigitsValue(ss[..1]) == sec / 10;
    assert DigitsValue(ss) == sec;
  }

  /** Renderings of a few counts: under and over a minute, and a whole number of minutes. */
  lemma FormatTimeExamples()
    ensures FormatTime(65) == "1:05"
    ensures FormatTime(5) == "0:05"
    ensures FormatTime(660) == "11:00"
  {
    assert Decimal(11) == Decimal(1) + [DigitChar(1)];
  }
}
