/**
 * Elapsed-time display (src/utils/animation.ts, formatTime). Milliseconds
 * become `MM:SS.CC`: minutes, seconds and hundredths, each left-padded with
 * '0' to two digits. Minutes are not capped, so 100 minutes and more print
 * with three or more digits.
 */
module Animation {
  import opened Wrappers

  /** The character for a decimal digit. */
  function DigitChar(d: nat): (c: char)
    requires d < 10
    ensures '0' <= c <= '9'
  {
    "0123456789"[d]
  }

  /** The value of a decimal digit character. */
  function DigitValue(c: char): nat
  {
    if '0' <= c <= '9' then (c as int - '0' as int) else 0
  }

  predicate IsDigit(c: char)
  {
    '0' <= c <= '9'
  }

  predicate AllDigits(s: string)
  {
    forall i :: 0 <= i < |s| ==> IsDigit(s[i])
  }

  /** `n.toString()`: the shortest decimal numeral for `n`. */
  function NatToString(n: nat): (s: string)
    ensures 1 <= |s|
    ensures n < 10 <==> |s| == 1
    ensures 10 <= n < 100 ==> |s| == 2
    ensures n >= 100 ==> |s| >= 3
  {
    if n < 10 then [DigitChar(n)] else NatToString(n / 10) + [DigitChar(n % 10)]
  }

  /** `padStart(2, '0')`: prepends zeros until the string has at least two characters. */
  function PadTwo(s: string): (r: string)
    ensures |r| == if |s| >= 2 then |s| else 2
  {
    if |s| >= 2 then s else seq(2 - |s|, _ => '0') + s
  }

  /** The numeral consists of decimal digits. */
  lemma {:induction false} NatToStringDigits(n: nat)
    ensures AllDigits(NatToString(n))
  {
    if n >= 10 {
      NatToStringDigits(n / 10);
    }
  }

  /** Padding adds only zeros, in front, and keeps the string as its suffix. */
  lemma PadTwoZeros(s: string)
    ensures forall i :: 0 <= i < |PadTwo(s)| - |s| ==> PadTwo(s)[i] == '0'
    ensures PadTwo(s)[|PadTwo(s)| - |s|..] == s
  {
  }

  /** Whole minutes of `t` milliseconds. */
  function Minutes(t: nat): nat { t / 60000 }

  /** Seconds past the minute. */
  function Seconds(t: nat): (s: nat)
    ensures s < 60
  {
    (t % 60000) / 1000
  }

  /** Hundredths past the second (the source calls them `ms`). */
  function Centis(t: nat): (c: nat)
    ensures c < 100
  {
    (t % 1000) / 10
  }

  /** One field of the display: its numeral, zero-padded to two digits. */
  function Field(n: nat): string
  {
    PadTwo(NatToString(n))
  }

  /** The three fields joined as `MM:SS.CC`. */
  function Display(m: nat, sec: nat, c: nat): string
  {
    Field(m) + ":" + Field(sec) + "." + Field(c)
  }

  /** `formatTime`: `MM:SS.CC` for `t` milliseconds. */
  function FormatTime(t: nat): string
  {
    Display(Minutes(t), Seconds(t), Centis(t))
  }

  /** The numeric value of a string of decimal digits (leading zeros allowed). */
  function ParseDigits(s: string): nat
  {
    if s == [] then 0 else ParseDigits(s[..|s| - 1]) * 10 + DigitValue(s[|s| - 1])
  }

  /** Milliseconds in `m` minutes, `s` seconds and `c` hundredths. */
  function Millis(m: nat, s: nat, c: nat): nat
  {
    m * 60000 + s * 1000 + c * 10
  }

  /** The value of a display given its minutes, seconds and hundredths digits. */
  function ParseFields(mm: string, ss: string, cc: string): nat
  {
    Millis(ParseDigits(mm), ParseDigits(ss), ParseDigits(cc))
  }

  /**
   * Reads a `MM:SS.CC` display back into milliseconds: the inverse of
   * FormatTime up to the dropped last digit of the milliseconds.
   */
  function ParseTime(s: string): (r: Option<nat>)
  {
    if |s| < 8 || s[|s| - 6] != ':' || s[|s| - 3] != '.' then None
    else Some(ParseFields(s[..|s| - 6], s[|s| - 5..|s| - 3], s[|s| - 2..]))
  }

  /** The numeral reads back as its number. */
  lemma {:induction false} ParseNatToString(n: nat)
    ensures ParseDigits(NatToString(n)) == n
  {
    var s := NatToString(n);
    if n >= 10 {
      ParseNatToString(n / 10);
      assert s[..|s| - 1] == NatToString(n / 10);
    }
  }

  /** A leading zero does not change the value. */
  lemma {:induction false} ParseLeadingZero(s: string)
    ensures ParseDigits(['0'] + s) == ParseDigits(s)
  {
    if s != [] {
      assert (['0'] + s)[..|s|] == ['0'] + s[..|s| - 1];
      ParseLeadingZero(s[..|s| - 1]);
    }
  }

  /** Padding with zeros keeps the value. */
  lemma ParsePadTwo(s: string)
    ensures ParseDigits(PadTwo(s)) == ParseDigits(s)
    ensures AllDigits(s) ==> AllDigits(PadTwo(s))
  {
    if |s| == 1 {
      assert PadTwo(s) == ['0'] + s;
      ParseLeadingZero(s);
    } else if |s| == 0 {
      assert PadTwo(s) == ['0'] + ['0'];
      ParseLeadingZero(['0']);
      ParseLeadingZero([]);
    }
  }

  /** `t` with its last decimal digit dropped. */
  function RoundDown(t: nat): nat
  {
    t - t % 10
  }

  /** A decomposition by 1000 is the quotient and remainder. */
  lemma ModThousand(t: int, q: int, r: int)
    requires 0 <= r < 1000 && t == 1000 * q + r
    ensures t % 1000 == r
  {
  }

  /** A decomposition by 10 is the quotient and remainder. */
  lemma ModTen(t: int, q: int, r: int)
    requires 0 <= r < 10 && t == 10 * q + r
    ensures t % 10 == r
  {
  }

  /** The three fields recombine into `t` with its last digit dropped. */
  lemma FieldsRecombine(t: nat)
    ensures Millis(Minutes(t), Seconds(t), Centis(t)) == RoundDown(t)
  {
    var m, r1 := t / 60000, t % 60000;
    var sec, r2 := r1 / 1000, r1 % 1000;
    var c, r3 := r2 / 10, r2 % 10;
    ModThousand(t, 60 * m + sec, r2);
    ModTen(t, 6000 * m + 100 * sec + c, r3);
  }

  /** Where the separators and the three fields sit in a display. */
  lemma SplitDisplay(mm: string, ss: string, cc: string)
    requires |mm| >= 2 && |ss| == 2 && |cc| == 2
    ensures var s := mm + ":" + ss + "." + cc;
      |s| == |mm| + 6 && s[|s| - 6] == ':' && s[|s| - 3] == '.'
      && s[..|s| - 6] == mm && s[|s| - 5..|s| - 3] == ss && s[|s| - 2..] == cc
  {
    var head := mm + ":";
    var mid := head + ss + ".";
    var s := mid + cc;
    var n := |mm|;
    assert s[n] == ':' by { assert s[n] == head[n]; }
    assert s[n + 3] == '.' by { assert s[n + 3] == mid[n + 3]; }
    assert s[..n] == mm by { assert s[..n] == head[..n]; }
    assert s[n + 1..n + 3] == ss by { assert s[n + 1..n + 3] == mid[n + 1..n + 3]; }
    assert s[n + 4..] == cc;
  }

  /** Reading a well-formed display combines its three fields. */
  lemma ParseTimeOfFields(mm: string, ss: string, cc: string)
    requires |mm| >= 2 && |ss| == 2 && |cc| == 2
    ensures ParseTime(mm + ":" + ss + "." + cc) == Some(ParseFields(mm, ss, cc))
  {
    SplitDisplay(mm, ss, cc);
  }

  /** A field prints as two or more digits that read back as its value. */
  lemma PaddedField(n: nat)
    ensures |Field(n)| >= 2
    ensures n < 100 ==> |Field(n)| == 2
    ensures n >= 100 ==> |Field(n)| >= 3
    ensures AllDigits(Field(n))
    ensures ParseDigits(Field(n)) == n
  {
    ParsePadTwo(NatToString(n));
    ParseNatToString(n);
    NatToStringDigits(n);
  }

  /** A display of fields below 100 reads back as their combined milliseconds. */
  lemma DisplayRoundTrip(m: nat, sec: nat, c: nat)
    requires sec < 100 && c < 100
    ensures ParseTime(Display(m, sec, c)) == Some(Millis(m, sec, c))
  {
    PaddedField(m);
    PaddedField(sec);
    PaddedField(c);
    ParseTimeOfFields(Field(m), Field(sec), Field(c));
  }

  /** Lossy round trip: reading the display back gives `t` rounded down to a multiple of 10. */
  lemma FormatTimeRoundTrip(t: nat)
    ensures ParseTime(FormatTime(t)) == Some(RoundDown(t))
  {
    DisplayRoundTrip(Minutes(t), Seconds(t), Centis(t));
    FieldsRecombine(t);
  }

  /** The separators sit six and three characters from the end, between the three fields. */
  lemma DisplayShape(m: nat, sec: nat, c: nat)
    requires sec < 100 && c < 100
    ensures var s := Display(m, sec, c);
      |s| == |Field(m)| + 6 && s[|s| - 6] == ':' && s[|s| - 3] == '.'
      && s[..|s| - 6] == Field(m) && s[|s| - 5..|s| - 3] == Field(sec) && s[|s| - 2..] == Field(c)
  {
    PaddedField(sec);
    PaddedField(c);
    PaddedField(m);
    SplitDisplay(Field(m), Field(sec), Field(c));
  }

  /**
   * Under 100 minutes the display is exactly eight characters, `MM:SS.CC`,
   * each pair being the two-digit field.
   */
  lemma FormatTimeShape(t: nat)
    requires t < 6000000
    ensures |FormatTime(t)| == 8
    ensures FormatTime(t)[2] == ':' && FormatTime(t)[5] == '.'
    ensures FormatTime(t)[..2] == Field(Minutes(t))
    ensures FormatTime(t)[3..5] == Field(Seconds(t))
    ensures FormatTime(t)[6..] == Field(Centis(t))
  {
    assert Minutes(t) < 100;
    PaddedField(Minutes(t));
    DisplayShape(Minutes(t), Seconds(t), Centis(t));
  }

  /** From 100 minutes on, the minutes keep all their digits. */
  lemma FormatTimeLongGame(t: nat)
    requires t >= 6000000
    ensures |FormatTime(t)| >= 9
    ensures FormatTime(t)[|FormatTime(t)| - 6] == ':'
    ensures FormatTime(t)[..|FormatTime(t)| - 6] == Field(Minutes(t))
  {
    assert Minutes(t) >= 100;
    PaddedField(Minutes(t));
    DisplayShape(Minutes(t), Seconds(t), Centis(t));
  }

  /** Worked examples of single fields. */
  lemma FieldExamples()
    ensures Field(0) == "00"
    ensures Field(1) == "01"
    ensures Field(5) == "05"
    ensures Field(23) == "23"
    ensures Field(100) == "100"
  {
    assert NatToString(0) == "0";
    assert NatToString(1) == "1";
    assert NatToString(5) == "5";
    assert NatToString(2) == "2";
    assert NatToString(23) == "23";
    assert NatToString(10) == "10";
    assert NatToString(100) == "100";
  }

  /** 65.23 seconds into a game the display reads `01:05.23`. */
  lemma FormatTimeExample()
    ensures FormatTime(65230) == "01:05.23"
  {
    assert Minutes(65230) == 1 && Seconds(65230) == 5 && Centis(65230) == 23;
    FieldExamples();
    assert "01" + ":" + "05" + "." + "23" == "01:05.23";
  }

  /** At the start of a game the display reads `00:00.00`. */
  lemma FormatTimeAtStart()
    ensures FormatTime(0) == "00:00.00"
  {
    assert Minutes(0) == 0 && Seconds(0) == 0 && Centis(0) == 0;
    FieldExamples();
    assert "00" + ":" + "00" + "." + "00" == "00:00.00";
  }

  /** A game of 100 minutes shows three minute digits. */
  lemma FormatTimeHundredMinutes()
    ensures FormatTime(6000000) == "100:00.00"
  {
    assert Minutes(6000000) == 100 && Seconds(6000000) == 0 && Centis(6000000) == 0;
    FieldExamples();
    assert "100" + ":" + "00" + "." + "00" == "100:00.00";
  }
}
