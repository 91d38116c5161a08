/**
 * The pure parts of the timer card (src/components/TimerCard.tsx): the
 * HH:MM:SS rendering of a number of seconds, and the two conditions that
 * raise the half-way alert and the completion dispatch.
 */
module TimerCard {
  import opened TimerTypes
  import opened TimerSpec

  /** `Math.floor(seconds / 3600)`: the whole hours in `seconds`. */
  function Hours(seconds: nat): (r: nat)
    ensures r * 3600 <= seconds < r * 3600 + 3600
  {
    seconds / 3600
  }

  /** `Math.floor((seconds % 3600) / 60)`: the minutes past the hour. */
  function Minutes(seconds: nat): (r: nat)
    ensures r <= 59
  {
    (seconds % 3600) / 60
  }

  /** `seconds % 60`: the seconds past the minute. */
  function Secs(seconds: nat): (r: nat)
    ensures r <= 59
  {
    seconds % 60
  }

  /** The number of seconds in `h` hours, `m` minutes and `s` seconds. */
  function Total(h: nat, m: nat, s: nat): nat {
    h * 3600 + m * 60 + s
  }

  /** The three fields together account for every second. */
  lemma FieldsRecombine(seconds: nat)
    ensures Total(Hours(seconds), Minutes(seconds), Secs(seconds)) == seconds
  {
    var h, rest := seconds / 3600, seconds % 3600;
    var m, sc := rest / 60, rest % 60;
    assert seconds == h * 3600 + rest;
    assert rest == m * 60 + sc;
    assert seconds == (h * 60 + m) * 60 + sc;
    ModSixty(h * 60 + m, sc);
  }

  /** The remainder by 60 of q * 60 + r, for 0 <= r < 60, is r. */
  lemma ModSixty(q: int, r: int)
    requires 0 <= r < 60
    ensures (q * 60 + r) % 60 == r
  {
  }

  predicate IsDigit(c: char) {
    '0' <= c <= '9'
  }

  predicate AllDigits(t: string) {
    forall i :: 0 <= i < |t| ==> IsDigit(t[i])
  }

  function DigitChar(d: nat): (c: char)
    requires d < 10
    ensures IsDigit(c) && c as int - '0' as int == d
  {
    ('0' as int + d) as char
  }

  /** `n.toString()` for a non-negative integer: its decimal digits, with no leading zero. */
  function NatToString(n: nat): (r: string)
    ensures |r| >= 1 && AllDigits(r)
    ensures |r| == 1 <==> n < 10
    ensures |r| <= 2 <==> n < 100
    ensures |r| > 1 ==> r[0] != '0'
    decreases n
  {
    if n < 10 then [DigitChar(n)] else NatToString(n / 10) + [DigitChar(n % 10)]
  }

  /** The number a string of decimal digits denotes. */
  function DigitsValue(t: string): nat
    requires AllDigits(t)
    decreases |t|
  {
    if t == [] then 0 else DigitsValue(t[..|t| - 1]) * 10 + (t[|t| - 1] as int - '0' as int)
  }

  /** Reading back the decimal digits of `n` gives `n`. */
  lemma {:induction false} NatToStringValue(n: nat)
    ensures DigitsValue(NatToString(n)) == n
  {
    if n >= 10 {
      var r := NatToString(n);
      assert r[..|r| - 1] == NatToString(n / 10);
      NatToStringValue(n / 10);
    }
  }

  /** `k` copies of `c`. */
  function Repeat(c: char, k: nat): (r: string)
    ensures |r| == k && forall i :: 0 <= i < k ==> r[i] == c
  {
    if k == 0 then [] else [c] + Repeat(c, k - 1)
  }

  /** `t.padStart(width, fill)`: `t` preceded by enough copies of `fill` to reach `width` characters. */
  function PadStart(t: string, width: nat, fill: char): (r: string)
    ensures |r| == if |t| < width then width else |t|
    ensures r[|r| - |t|..] == t
    ensures forall i :: 0 <= i < |r| - |t| ==> r[i] == fill
  {
    if |t| < width then Repeat(fill, width - |t|) + t else t
  }

  /** Leading zeros do not change the value of a digit string. */
  lemma {:induction false} LeadingZeros(k: nat, t: string)
    requires AllDigits(t)
    ensures AllDigits(Repeat('0', k) + t)
    ensures DigitsValue(Repeat('0', k) + t) == DigitsValue(t)
    decreases k, |t|
  {
    var z := Repeat('0', k) + t;
    if t == [] {
      if k > 0 {
        assert z == ['0'] + Repeat('0', k - 1);
        assert z[..|z| - 1] == Repeat('0', k - 1) + [];
        LeadingZeros(k - 1, []);
      }
    } else {
      var init := t[..|t| - 1];
      assert z[..|z| - 1] == Repeat('0', k) + init;
      LeadingZeros(k, init);
    }
  }

  /** One field of the rendering: at least two digits, left-padded with '0'. */
  function Pad2(n: nat): (r: string)
    ensures |r| >= 2 && AllDigits(r) && DigitsValue(r) == n
    ensures |r| == 2 <==> n < 100
  {
    var digits := NatToString(n);
    NatToStringValue(n);
    LeadingZeros(if |digits| < 2 then 2 - |digits| else 0, digits);
    PadStart(digits, 2, '0')
  }

  /** Three fields joined by ':', and where each field can be found again. */
  function JoinFields(h: string, m: string, s: string): (r: string)
    requires |m| == 2 && |s| == 2
    ensures |r| == |h| + 6 && r[|r| - 3] == ':' && r[|r| - 6] == ':'
    ensures r[..|r| - 6] == h && r[|r| - 5..|r| - 3] == m && r[|r| - 2..] == s
  {
    h + ":" + m + ":" + s
  }

  /** The hours field needs more than two digits exactly from 100 hours on. */
  lemma HoursBelow100(seconds: nat)
    ensures Hours(seconds) < 100 <==> seconds < 360000
  {
  }

  /** `formatTime`: hours, minutes and seconds, each padded to two digits, joined by ':'. */
  function FormatTime(seconds: nat): (r: string)
    ensures |r| >= 8 && r[|r| - 3] == ':' && r[|r| - 6] == ':'
    ensures |r| == 8 <==> seconds < 360000
  {
    var hh, mm, ss := Hours(seconds), Minutes(seconds), Secs(seconds);
    HoursBelow100(seconds);
    var h, m, s := Pad2(hh), Pad2(mm), Pad2(ss);
    assert |m| == 2 && |s| == 2;
    JoinFields(h, m, s)
  }

  /** Splits an `H..H:MM:SS` string into its three digit fields; None when it is not of that shape. */
  function SplitFields(t: string): (r: Option<(string, string, string)>)
    ensures r.Some? ==> AllDigits(r.value.0) && AllDigits(r.value.1) && AllDigits(r.value.2)
  {
    if |t| >= 8 && t[|t| - 3] == ':' && t[|t| - 6] == ':'
       && AllDigits(t[..|t| - 6]) && AllDigits(t[|t| - 5..|t| - 3]) && AllDigits(t[|t| - 2..])
    then Some((t[..|t| - 6], t[|t| - 5..|t| - 3], t[|t| - 2..]))
    else None
  }

  /** The number of seconds three digit fields denote. */
  function FieldsValue(h: string, m: string, s: string): nat
    requires AllDigits(h) && AllDigits(m) && AllDigits(s)
  {
    Total(DigitsValue(h), DigitsValue(m), DigitsValue(s))
  }

  /** Reads an `H..H:MM:SS` string back into seconds; None when it is not of that shape. */
  function ParseTime(t: string): Option<nat> {
    match SplitFields(t)
    case Some((h, m, s)) => Some(FieldsValue(h, m, s))
    case None => None
  }

  /** Splitting three joined digit fields gives the fields back. */
  lemma SplitJoined(h: string, m: string, s: string)
    requires |h| >= 2 && |m| == 2 && |s| == 2
    requires AllDigits(h) && AllDigits(m) && AllDigits(s)
    ensures SplitFields(JoinFields(h, m, s)) == Some((h, m, s))
  {
  }

  /** The rendering loses nothing: parsing it gives back the number of seconds. */
  lemma FormatThenParse(seconds: nat)
    ensures ParseTime(FormatTime(seconds)) == Some(seconds)
  {
    var hh, mm, ss := Hours(seconds), Minutes(seconds), Secs(seconds);
    var h, m, s := Pad2(hh), Pad2(mm), Pad2(ss);
    FormatIsJoin(seconds);
    ParseJoined(h, m, s);
    PaddedFieldsValue(hh, mm, ss);
    FieldsRecombine(seconds);
    assert ParseTime(FormatTime(seconds)) == Some(FieldsValue(h, m, s));
    assert FieldsValue(h, m, s) == Total(hh, mm, ss);
  }

  /** The rendering is the three padded fields joined. */
  lemma FormatIsJoin(seconds: nat)
    ensures |Pad2(Minutes(seconds))| == 2 && |Pad2(Secs(seconds))| == 2
    ensures FormatTime(seconds) == JoinFields(Pad2(Hours(seconds)), Pad2(Minutes(seconds)), Pad2(Secs(seconds)))
  {
  }

  /** Parsing three joined digit fields gives the value they denote. */
  lemma ParseJoined(h: string, m: string, s: string)
    requires |h| >= 2 && |m| == 2 && |s| == 2
    requires AllDigits(h) && AllDigits(m) && AllDigits(s)
    ensures ParseTime(JoinFields(h, m, s)) == Some(FieldsValue(h, m, s))
  {
    SplitJoined(h, m, s);
  }

  /** Padding does not change the value the three fields denote. */
  lemma PaddedFieldsValue(hh: nat, mm: nat, ss: nat)
    ensures FieldsValue(Pad2(hh), Pad2(mm), Pad2(ss)) == Total(hh, mm, ss)
  {
    var h, m, s := Pad2(hh), Pad2(mm), Pad2(ss);
    assert DigitsValue(h) == hh && DigitsValue(m) == mm && DigitsValue(s) == ss;
  }

  /**
   * The half-way alert: not yet notified and the time left equals the
   * duration halved and rounded down.
   */
  function HalfwayAlert(notified: bool, timeLeft: int, duration: nat): (r: bool)
    ensures r <==> !notified && 2 * timeLeft <= duration <= 2 * timeLeft + 1
  {
    !notified && timeLeft == duration / 2
  }

  /**
   * The condition under which the card dispatches completeTimer: exactly the
   * running entries the engine's tick would complete without taking a second
   * off, that is, those already at zero.
   */
  predicate CompletionTrigger(timeLeft: int, isRunning: bool): (r: bool)
    ensures var st := TimerState(isRunning, timeLeft, Running);
      r <==> CompletesOnTick(st) && Decrement(st) == st
  {
    timeLeft == 0 && isRunning
  }
}
