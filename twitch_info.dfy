/**
 * The pure helpers of `TwitchInfo` in birds.py: splitting the time elapsed since
 * the current VOD began into hours, minutes and seconds, formatting it as the
 * `?t=HHhMMmSSs` suffix of a VOD link, and picking the live stream's id out of
 * the list the streaming service returns. The service calls themselves are
 * inputs here.
 */
module TwitchInfo {
  import opened Wrappers

  /** A Python `datetime.timedelta` as Python normalises it. */
  datatype TimeDelta = TimeDelta(days: int, seconds: nat, microseconds: nat) {
    predicate Normalized() {
      seconds < 86400 && microseconds < 1000000
    }

    /** The whole seconds of the duration, days included. */
    function TotalSeconds(): int {
      days * 86400 + seconds
    }
  }

  datatype Clock = Clock(hours: nat, minutes: nat, seconds: nat)

  // ---------------------------------------------------------------------------
  // hours_minutes_seconds, as written and as intended
  // ---------------------------------------------------------------------------

  /**
   * `hours_minutes_seconds` as written: it reads only `td.seconds`, the part
   * of the duration below one day, and takes hours modulo 60.
   */
  function HoursMinutesSeconds(td: TimeDelta): (r: Clock)
    ensures r.hours < 60 && r.minutes < 60 && r.seconds < 60
    ensures td.seconds < 86400 ==>
      r.hours < 24 && r.hours * 3600 + r.minutes * 60 + r.seconds == td.seconds
  {
    var h := (td.seconds / 3600) % 60;
    var m := (td.seconds / 60) % 60;
    var s := td.seconds % 60;
    assert td.seconds < 86400 ==> h == td.seconds / 3600 && h < 24;
    assert td.seconds / 60 == (td.seconds / 3600) * 60 + m;
    Clock(h, m, s)
  }

  /**
   * A duration of one day and five seconds is split as if only five seconds had
   * elapsed: the days of the duration are lost.
   */
  lemma DaysAreDropped()
    ensures var td := TimeDelta(1, 5, 0);
      td.Normalized() && td.TotalSeconds() == 86405 && HoursMinutesSeconds(td) == Clock(0, 0, 5)
  {
  }

  /**
   * The split the VOD link needs: the whole time elapsed since the VOD began,
   * in hours (not wrapped), minutes and seconds.
   */
  function ElapsedHoursMinutesSeconds(td: TimeDelta): (r: Clock)
    requires td.Normalized() && td.days >= 0
    ensures r.minutes < 60 && r.seconds < 60
    ensures r.hours * 3600 + r.minutes * 60 + r.seconds == td.TotalSeconds()
  {
    var total := td.days * 86400 + td.seconds;
    assert total / 60 == (total / 3600) * 60 + (total / 60) % 60;
    Clock(total / 3600, (total / 60) % 60, total % 60)
  }

  /** On durations below one day the corrected split agrees with the written one. */
  lemma {:induction false} SplitsAgreeWithinADay(td: TimeDelta)
    requires td.Normalized() && td.days == 0
    ensures ElapsedHoursMinutesSeconds(td) == HoursMinutesSeconds(td)
  {
    var a, b := ElapsedHoursMinutesSeconds(td), HoursMinutesSeconds(td);
    ClockUnique(a, b);
  }

  /** A duration has only one split into hours, minutes below 60 and seconds below 60. */
  lemma {:induction false} ClockUnique(a: Clock, b: Clock)
    requires a.minutes < 60 && a.seconds < 60 && b.minutes < 60 && b.seconds < 60
    requires a.hours * 3600 + a.minutes * 60 + a.seconds == b.hours * 3600 + b.minutes * 60 + b.seconds
    ensures a == b
  {
    var x := a.hours * 3600 + a.minutes * 60 + a.seconds;
    assert a.hours * 60 + a.minutes == x / 60 by {
      assert x == (a.hours * 60 + a.minutes) * 60 + a.seconds;
    }
    assert b.hours * 60 + b.minutes == x / 60 by {
      assert x == (b.hours * 60 + b.minutes) * 60 + b.seconds;
    }
  }

  // ---------------------------------------------------------------------------
  // str(n) and str.zfill
  // ---------------------------------------------------------------------------

  predicate IsDigit(ch: char) {
    '0' <= ch <= '9'
  }

  predicate AllDigits(s: string) {
    forall i :: 0 <= i < |s| ==> IsDigit(s[i])
  }

  function DigitChar(d: nat): (ch: char)
    requires d < 10
    ensures IsDigit(ch)
  {
    ('0' as int + d) as char
  }

  function DigitValue(ch: char): nat
    requires IsDigit(ch)
  {
    ch as int - '0' as int
  }

  /** Python's `str(n)` for a non-negative integer: its decimal digits, without leading zeros. */
  function Decimal(n: nat): (r: string)
    ensures 1 <= |r| && AllDigits(r)
    ensures |r| == 1 <==> n < 10
    ensures n >= 10 ==> r[0] != '0'
  {
    if n < 10 then [DigitChar(n)] else Decimal(n / 10) + [DigitChar(n % 10)]
  }

  /** The number a string of decimal digits denotes. */
  function DigitsValue(s: string): nat
    requires AllDigits(s)
  {
    if s == [] then 0 else DigitsValue(s[..|s| - 1]) * 10 + DigitValue(s[|s| - 1])
  }

  /** Reading back `str(n)` gives `n`. */
  lemma {:induction false} DecimalRoundTrip(n: nat)
    ensures DigitsValue(Decimal(n)) == n
  {
    if n >= 10 {
      DecimalRoundTrip(n / 10);
      var r := Decimal(n);
      assert r[..|r| - 1] == Decimal(n / 10);
    }
  }

  /** Python's `s.zfill(width)` on a string without a sign: '0's on the left up to `width`. */
  function ZFill(s: string, width: nat): (r: string)
    ensures |r| == if |s| >= width then |s| else width
    ensures r[|r| - |s|..] == s
    ensures forall i :: 0 <= i < |r| - |s| ==> r[i] == '0'
  {
    if |s| >= width then s else seq(width - |s|, _ => '0') + s
  }

  /** Leading zeros do not change the number a string of digits denotes. */
  lemma {:induction false} ZerosDoNotCount(s: string, width: nat)
    requires AllDigits(s)
    ensures AllDigits(ZFill(s, width)) && DigitsValue(ZFill(s, width)) == DigitsValue(s)
  {
    if |s| < width {
      var k := width - |s|;
      ZeroPrefix(k, s);
    }
  }

  lemma {:induction false} ZeroPrefix(k: nat, s: string)
    requires AllDigits(s)
    ensures AllDigits(seq(k, _ => '0') + s)
    ensures DigitsValue(seq(k, _ => '0') + s) == DigitsValue(s)
    decreases |s|
  {
    var z: string := seq(k, _ => '0');
    assert DigitsValue(z) == 0 by { AllZeros(k); }
    if s == [] {
      assert z + s == z;
    } else {
      var init := s[..|s| - 1];
      ZeroPrefix(k, init);
      assert (z + s)[..|z + s| - 1] == z + init;
    }
  }

  lemma {:induction false} AllZeros(k: nat)
    ensures AllDigits(seq(k, _ => '0'))
    ensures DigitsValue(seq(k, _ => '0')) == 0
  {
    if k > 0 {
      AllZeros(k - 1);
      assert seq(k, _ => '0')[..k - 1] == seq(k - 1, _ => '0');
    }
  }

  /** `str(n).zfill(2)`. */
  function TwoDigits(n: nat): string {
    ZFill(Decimal(n), 2)
  }

  /** Below 100, `str(n).zfill(2)` is exactly the two digits of `n`. */
  lemma TwoDigitsBelowHundred(n: nat)
    requires n < 100
    ensures TwoDigits(n) == [DigitChar(n / 10), DigitChar(n % 10)]
  {
    if n >= 10 {
      assert Decimal(n / 10) == [DigitChar(n / 10)];
    }
  }

  /** From 100 on, `str(n).zfill(2)` has more than two characters. */
  lemma TwoDigitsFromHundred(n: nat)
    requires n >= 100
    ensures |TwoDigits(n)| > 2
  {
    assert |Decimal(n)| == |Decimal(n / 10)| + 1;
  }

  // ---------------------------------------------------------------------------
  // The VOD link
  // ---------------------------------------------------------------------------

  /** `f"?t={h:zfill 2}h{m:zfill 2}m{s:zfill 2}s"`. */
  function VodSuffix(c: Clock): string {
    "?t=" + TwoDigits(c.hours) + "h" + TwoDigits(c.minutes) + "m" + TwoDigits(c.seconds) + "s"
  }

  /** Reads a `?t=HHhMMmSSs` suffix back into the clock it encodes. */
  function ParseVodSuffix(x: string): (r: Option<Clock>)
    ensures r.Some? ==> |x| == 12
  {
    if |x| == 12 && x[..3] == "?t=" && x[5] == 'h' && x[8] == 'm' && x[11] == 's'
       && IsDigit(x[3]) && IsDigit(x[4]) && IsDigit(x[6]) && IsDigit(x[7])
       && IsDigit(x[9]) && IsDigit(x[10])
    then
      Some(Clock(DigitValue(x[3]) * 10 + DigitValue(x[4]),
                 DigitValue(x[6]) * 10 + DigitValue(x[7]),
                 DigitValue(x[9]) * 10 + DigitValue(x[10])))
    else
      None
  }

  lemma {:induction false} VodSuffixChars(c: Clock)
    requires c.hours < 100 && c.minutes < 100 && c.seconds < 100
    ensures VodSuffix(c) == SuffixChars(c)
  {
    TwoDigitsBelowHundred(c.hours);
    TwoDigitsBelowHundred(c.minutes);
    TwoDigitsBelowHundred(c.seconds);
    Concat12("?t=", TwoDigits(c.hours), TwoDigits(c.minutes), TwoDigits(c.seconds));
  }

  lemma Concat12(p: string, h: string, m: string, s: string)
    requires |p| == 3 && |h| == 2 && |m| == 2 && |s| == 2
    ensures p + h + "h" + m + "m" + s + "s"
      == [p[0], p[1], p[2], h[0], h[1], 'h', m[0], m[1], 'm', s[0], s[1], 's']
  {
  }

  /** The suffix of a clock whose fields are below 100, character by character. */
  function SuffixChars(c: Clock): (x: string)
    requires c.hours < 100 && c.minutes < 100 && c.seconds < 100
    ensures |x| == 12
  {
    ['?', 't', '=',
     DigitChar(c.hours / 10), DigitChar(c.hours % 10), 'h',
     DigitChar(c.minutes / 10), DigitChar(c.minutes % 10), 'm',
     DigitChar(c.seconds / 10), DigitChar(c.seconds % 10), 's']
  }

  lemma DigitsOf(n: nat)
    requires n < 100
    ensures DigitValue(DigitChar(n / 10)) * 10 + DigitValue(DigitChar(n % 10)) == n
  {
  }

  lemma {:induction false} ParseSuffixChars(c: Clock)
    requires c.hours < 100 && c.minutes < 100 && c.seconds < 100
    ensures ParseVodSuffix(SuffixChars(c)) == Some(c)
  {
    var x := SuffixChars(c);
    assert x[..3] == "?t=";
    DigitsOf(c.hours);
    DigitsOf(c.minutes);
    DigitsOf(c.seconds);
  }

  /** With every field below 100 the suffix is 12 characters and reads back to the same clock. */
  lemma {:induction false} VodSuffixRoundTrip(c: Clock)
    requires c.hours < 100 && c.minutes < 100 && c.seconds < 100
    ensures |VodSuffix(c)| == 12
    ensures ParseVodSuffix(VodSuffix(c)) == Some(c)
  {
    VodSuffixChars(c);
    ParseSuffixChars(c);
  }

  /** Every string that reads as a suffix is the suffix of the clock it reads as. */
  lemma {:induction false} VodSuffixCanonical(x: string)
    requires ParseVodSuffix(x).Some?
    ensures VodSuffix(ParseVodSuffix(x).value) == x
  {
    var c := ParseVodSuffix(x).value;
    VodSuffixChars(c);
    SuffixCharsOfParse(x);
  }

  lemma {:induction false} SuffixCharsOfParse(x: string)
    requires ParseVodSuffix(x).Some?
    ensures var c := ParseVodSuffix(x).value;
      c.hours < 100 && c.minutes < 100 && c.seconds < 100 && SuffixChars(c) == x
  {
    var c := ParseVodSuffix(x).value;
    assert x[0] == '?' && x[1] == 't' && x[2] == '=' by { assert x[..3] == "?t="; }
    var y := SuffixChars(c);
    DigitsOf(c.hours);
    DigitsOf(c.minutes);
    DigitsOf(c.seconds);
    assert DigitChar(c.hours / 10) == x[3] && DigitChar(c.hours % 10) == x[4];
    assert DigitChar(c.minutes / 10) == x[6] && DigitChar(c.minutes % 10) == x[7];
    assert DigitChar(c.seconds / 10) == x[9] && DigitChar(c.seconds % 10) == x[10];
    forall i | 0 <= i < 12 ensures y[i] == x[i] {
    }
  }

  /** Python's `url[12:]`: the empty string when `url` is shorter than 12 characters. */
  function DropFirst12(url: string): (r: string)
    ensures |r| == if |url| >= 12 then |url| - 12 else 0
    ensures forall i :: 0 <= i < |r| ==> r[i] == url[i + 12]
  {
    if |url| >= 12 then url[12..] else ""
  }

  /** The link `get_current_video_url` returns, for a VOD url and a clock. */
  function VideoUrl(url: string, c: Clock): string {
    DropFirst12(url) + VodSuffix(c)
  }

  /**
   * `get_current_video_url` with the corrected split: the VOD url without its
   * first 12 characters, then the time elapsed since the VOD was created.
   */
  function CurrentVideoUrl(url: string, elapsed: TimeDelta): string
    requires elapsed.Normalized() && elapsed.days >= 0
  {
    VideoUrl(url, ElapsedHoursMinutesSeconds(elapsed))
  }

  /**
   * Below 100 hours, the link is the shortened url followed by a 12-character
   * suffix that reads back to exactly the elapsed number of seconds.
   */
  lemma CurrentVideoUrlRoundTrip(url: string, elapsed: TimeDelta)
    requires elapsed.Normalized() && elapsed.days >= 0
    requires elapsed.TotalSeconds() < 100 * 3600
    ensures var r := CurrentVideoUrl(url, elapsed);
      |r| == |DropFirst12(url)| + 12 &&
      r[..|r| - 12] == DropFirst12(url) &&
      ParseVodSuffix(r[|r| - 12..]).Some? &&
      var c := ParseVodSuffix(r[|r| - 12..]).value;
      c.hours * 3600 + c.minutes * 60 + c.seconds == elapsed.TotalSeconds()
  {
    var c := ElapsedHoursMinutesSeconds(elapsed);
    VodSuffixRoundTrip(c);
    var r := CurrentVideoUrl(url, elapsed);
    assert r == DropFirst12(url) + VodSuffix(c);
    assert r[|r| - 12..] == VodSuffix(c);
    assert r[..|r| - 12] == DropFirst12(url);
  }

  /**
   * `get_current_video_url` as written: the suffix comes from
   * `hours_minutes_seconds`, which sees only the part of the elapsed time below
   * one day.
   */
  function WrittenVideoUrl(url: string, elapsed: TimeDelta): string {
    VideoUrl(url, HoursMinutesSeconds(elapsed))
  }

  /**
   * The written link is the shortened url followed by a 12-character suffix
   * that reads back to `elapsed.seconds`: the elapsed time less its whole days.
   */
  lemma WrittenVideoUrlRoundTrip(url: string, elapsed: TimeDelta)
    requires elapsed.Normalized()
    ensures var r := WrittenVideoUrl(url, elapsed);
      |r| == |DropFirst12(url)| + 12 &&
      r[..|r| - 12] == DropFirst12(url) &&
      ParseVodSuffix(r[|r| - 12..]).Some? &&
      var c := ParseVodSuffix(r[|r| - 12..]).value;
      c.hours * 3600 + c.minutes * 60 + c.seconds == elapsed.seconds &&
      c.hours * 3600 + c.minutes * 60 + c.seconds == elapsed.TotalSeconds() - elapsed.days * 86400
  {
    var c := HoursMinutesSeconds(elapsed);
    VodSuffixRoundTrip(c);
    var r := WrittenVideoUrl(url, elapsed);
    assert r == DropFirst12(url) + VodSuffix(c);
    assert r[|r| - 12..] == VodSuffix(c);
    assert r[..|r| - 12] == DropFirst12(url);
  }

  /**
   * One day and five seconds after the VOD began, the written link points at
   * five seconds into the VOD; the corrected one at 24 hours and five seconds.
   */
  lemma WrittenVideoUrlAfterOneDay(url: string)
    ensures var td := TimeDelta(1, 5, 0);
      var n := |DropFirst12(url)|;
      WrittenVideoUrl(url, td)[n..] == "?t=00h00m05s" &&
      CurrentVideoUrl(url, td)[n..] == "?t=24h00m05s"
  {
    var td := TimeDelta(1, 5, 0);
    var n := |DropFirst12(url)|;
    assert HoursMinutesSeconds(td) == Clock(0, 0, 5);
    assert ElapsedHoursMinutesSeconds(td) == Clock(24, 0, 5);
    VodSuffixChars(Clock(0, 0, 5));
    VodSuffixChars(Clock(24, 0, 5));
    assert WrittenVideoUrl(url, td)[n..] == VodSuffix(Clock(0, 0, 5));
    assert CurrentVideoUrl(url, td)[n..] == VodSuffix(Clock(24, 0, 5));
  }

  // ---------------------------------------------------------------------------
  // get_current_stream_id
  // ---------------------------------------------------------------------------

  /** One entry of the streaming service's list of live streams. */
  datatype StreamRecord = StreamRecord(id: string)

  /** The id of the first live stream, or `None` when the list is empty. */
  function CurrentStreamId(streams: seq<StreamRecord>): (r: Option<string>)
    ensures r == None <==> |streams| == 0
    ensures r != None ==> r.value == streams[0].id
  {
    if |streams| == 0 then None else Some(streams[0].id)
  }
}
