/** Cue times as a subtitle file spells them: hours of two digits or more, minutes and seconds
    below sixty, three digits of milliseconds (WebVTT, section 4.1; SubRip differs in the mark
    before the milliseconds). */
module Timestamps {
  datatype Option<T> = None | Some(value: T)

  /** Python's `round`: to the nearest, and from the middle to the even neighbour. */
  function Round(x: real): int {
    var f := x.Floor;
    var rest := x - f as real;
    if rest < 0.5 || (rest == 0.5 && f % 2 == 0) then f else f + 1
  }

  function Millis(seconds: real): (ms: nat)
  {
    var s := if seconds < 0.0 then 0.0 else seconds;
    Round(s * 1000.0)
  }

  lemma RoundIsNearest(x: real)
    ensures -0.5 <= Round(x) as real - x <= 0.5
    ensures x - x.Floor as real == 0.5 ==> Round(x) % 2 == 0
  {
  }

  lemma RoundInOrder(x: real, y: real)
    requires x <= y
    ensures Round(x) <= Round(y)
  {
    assert x.Floor <= y.Floor;
  }

  lemma RoundShift(x: real, n: int)
    requires n % 2 == 0
    ensures Round(x + n as real) == Round(x) + n
  {
    assert (x + n as real).Floor == x.Floor + n;
  }

  function Digit(d: nat): char
    requires d < 10
  {
    '0' + d as char
  }

  predicate IsDigit(c: char) {
    '0' <= c <= '9'
  }

  predicate Digits(s: string) {
    forall i :: 0 <= i < |s| ==> IsDigit(s[i])
  }

  /** `n` in decimal, filled up with zeros to `width` (Python's `0{width}d`). */
  function Padded(n: nat, width: nat): (s: string)
    ensures |s| >= width && |s| >= 1 && Digits(s)
    ensures n < Pow10(if width == 0 then 1 else width) ==> |s| == if width == 0 then 1 else width
    decreases n, width
  {
    if n < 10 && width <= 1 then [Digit(n)]
    else Padded(n / 10, if width <= 1 then 0 else width - 1) + [Digit(n % 10)]
  }

  function Pow10(k: nat): nat {
    if k == 0 then 1 else 10 * Pow10(k - 1)
  }

  function Value(s: string): nat
    requires Digits(s)
  {
    if s == "" then 0 else Value(s[..|s| - 1]) * 10 + (s[|s| - 1] as int - '0' as int)
  }

  lemma {:induction false} PaddedReadsBack(n: nat, width: nat)
    ensures Value(Padded(n, width)) == n
    decreases n, width
  {
    var s := Padded(n, width);
    if n < 10 && width <= 1 {
      assert s[..0] == "";
    } else {
      var front := Padded(n / 10, if width <= 1 then 0 else width - 1);
      PaddedReadsBack(n / 10, if width <= 1 then 0 else width - 1);
      assert s[..|s| - 1] == front;
    }
  }

  function Spell(millis: nat, mark: char): string {
    var hours, ms := millis / 3_600_000, millis % 3_600_000;
    var minutes, ms' := ms / 60_000, ms % 60_000;
    var secs, ms'' := ms' / 1000, ms' % 1000;
    Padded(hours, 2) + ":" + Padded(minutes, 2) + ":" + Padded(secs, 2) + [mark] + Padded(ms'', 3)
  }

  function Ts(seconds: real, mark: char): string {
    Spell(Millis(seconds), mark)
  }

  function Total(hours: string, minutes: string, secs: string, ms: string): Option<nat> {
    if !Digits(hours) || !Digits(minutes) || !Digits(secs) || !Digits(ms) then None
    else if Value(minutes) > 59 || Value(secs) > 59 then None
    else Some(((Value(hours) * 60 + Value(minutes)) * 60 + Value(secs)) * 1000 + Value(ms))
  }

  /** Read by the grammar, from the right. */
  function Read(s: string, mark: char): Option<nat> {
    if |s| < 12 then None
    else
      var h := |s| - 10;
      if s[h] != ':' || s[h + 3] != ':' || s[h + 6] != mark then None
      else Total(s[..h], s[h + 1..h + 3], s[h + 4..h + 6], s[h + 7..])
  }

  lemma Parts(millis: nat)
    ensures var hours, ms := millis / 3_600_000, millis % 3_600_000;
      var minutes, ms' := ms / 60_000, ms % 60_000;
      var secs, ms'' := ms' / 1000, ms' % 1000;
      && minutes <= 59 && secs <= 59 && ms'' < 1000
      && ((hours * 60 + minutes) * 60 + secs) * 1000 + ms'' == millis
  {
  }

  lemma Slices(hours: string, minutes: string, secs: string, ms: string, mark: char)
    requires |minutes| == 2 && |secs| == 2 && |ms| == 3
    ensures var s := hours + ":" + minutes + ":" + secs + [mark] + ms;
      var h := |hours|;
      && |s| == h + 10 && s[h] == ':' && s[h + 3] == ':' && s[h + 6] == mark
      && s[..h] == hours && s[h + 1..h + 3] == minutes && s[h + 4..h + 6] == secs && s[h + 7..] == ms
  {
  }

  lemma ReadOf(hours: string, minutes: string, secs: string, ms: string, mark: char)
    requires |hours| >= 2 && |minutes| == 2 && |secs| == 2 && |ms| == 3
    ensures Read(hours + ":" + minutes + ":" + secs + [mark] + ms, mark) == Total(hours, minutes, secs, ms)
  {
    hide Total;
    Slices(hours, minutes, secs, ms, mark);
  }

  lemma SpellReadsBack(millis: nat, mark: char)
    ensures Read(Spell(millis, mark), mark) == Some(millis)
  {
    hide Padded, Value, Digits, Read;
    var hours, ms := millis / 3_600_000, millis % 3_600_000;
    var minutes, ms' := ms / 60_000, ms % 60_000;
    var secs, ms'' := ms' / 1000, ms' % 1000;
    Parts(millis);
    PaddedReadsBack(hours, 2);
    PaddedReadsBack(minutes, 2);
    PaddedReadsBack(secs, 2);
    PaddedReadsBack(ms'', 3);
    assert Pow10(2) == 100 && Pow10(3) == 1000;
    ReadOf(Padded(hours, 2), Padded(minutes, 2), Padded(secs, 2), Padded(ms'', 3), mark);
  }

  /** What is printed follows the grammar and reads back as the time rounded to a millisecond. */
  lemma TsReadsBack(seconds: real, mark: char)
    ensures Read(Ts(seconds, mark), mark) == Some(Millis(seconds))
    ensures seconds >= 0.0 ==> -0.5 <= Millis(seconds) as real - seconds * 1000.0 <= 0.5
  {
    SpellReadsBack(Millis(seconds), mark);
    RoundIsNearest(seconds * 1000.0);
  }

  lemma MillisInOrder(a: real, b: real)
    requires a <= b
    ensures Millis(a) <= Millis(b)
  {
    RoundInOrder((if a < 0.0 then 0.0 else a) * 1000.0, (if b < 0.0 then 0.0 else b) * 1000.0);
  }

  /** A cue of a tenth of a second or more is printed with a hundred milliseconds or more; of
      those that start before zero, the ones that end in time to round up to that. */
  lemma PrintedLengthIff(start: real, end: real)
    requires start + 0.1 <= end
    ensures Millis(start) + 100 <= Millis(end) <==> start >= 0.0 || end >= 0.0995
  {
    if start >= 0.0 {
      RoundInOrder(start * 1000.0 + 100.0, end * 1000.0);
      RoundShift(start * 1000.0, 100);
    } else {
      assert Millis(start) == Round(0.0) == 0;
      var e := if end < 0.0 then 0.0 else end;
      if end >= 0.0995 {
        RoundInOrder(99.5, e * 1000.0);
        assert Round(99.5) == 100;
      } else {
        assert e * 1000.0 < 99.5;
        RoundIsNearest(e * 1000.0);
      }
    }
  }

  /** WebVTT asks that a cue end after it starts. As printed, the cues of a tenth of a second or
      more that do are those that start at zero or later, or end late enough to be rounded up
      from zero. */
  lemma PrintedEndsAfterIff(start: real, end: real)
    requires start + 0.1 <= end
    ensures Millis(start) < Millis(end) <==> start >= 0.0 || end > 0.0005
  {
    if start >= 0.0 {
      PrintedLengthIff(start, end);
    } else {
      assert Millis(start) == Round(0.0) == 0;
      var e := if end < 0.0 then 0.0 else end;
      if end > 0.0005 {
        assert e * 1000.0 > 0.5;
        RoundUp(e * 1000.0);
      } else {
        assert e * 1000.0 <= 0.5;
        RoundInOrder(e * 1000.0, 0.5);
        assert Round(0.5) == 0;
      }
    }
  }

  lemma RoundUp(x: real)
    requires x > 0.5
    ensures Round(x) >= 1
  {
  }
}
