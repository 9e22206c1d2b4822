/**
 * `format_duration` (src/utils.rs): a duration in whole seconds rendered as
 * "dd:hh:mm:ss", then either cut to its last `length` characters or, without a
 * length, stripped of leading "00:" groups down to five characters. The loop that
 * strips only terminates for durations under an hour; `FormatDurationCorrected`
 * is the terminating version the rest of the model relies on.
 */
module Utils {
  import opened Wrappers
  import opened Text
  import YoutubeScraper

  /** `format!("{:0>2}", n)`: the decimal digits, left-padded with '0' to two characters. */
  function Pad2(n: nat): (s: string)
    ensures |s| >= 2 && AllDigits(s)
    ensures n < 100 ==> |s| == 2
  {
    var t := NatToString(n);
    assert 10 <= n < 100 ==> |NatToString(n / 10)| == 1;
    if |t| < 2 then "0" + t else t
  }

  /** A padded field followed by its ':' separator. */
  function Group(n: nat): (g: string)
    ensures |g| >= 3 && g[|g| - 1] == ':'
  {
    Pad2(n) + ":"
  }

  /** What the stripping loop removes. */
  const ZeroGroup: string := "00:"

  /** Days `d`, hours `h`, minutes `m` and seconds `s` rendered as "dd:hh:mm:ss". */
  function ClockOf(d: nat, h: nat, m: nat, s: nat): string
  {
    Group(d) + (Group(h) + (Group(m) + Pad2(s)))
  }

  /** The fields of `format_duration`: d = secs/86400, h = secs/3600%24, m = secs/60%60, s = secs%60. */
  function Clock(secs: nat): string
  {
    ClockOf(secs / 86400, secs / 3600 % 24, secs / 60 % 60, secs % 60)
  }

  /** Only digits and ':' appear in a rendered duration. */
  predicate ClockAlphabet(s: string)
  {
    forall i :: 0 <= i < |s| ==> IsDigit(s[i]) || s[i] == ':'
  }

  /** Joining two texts of digits and ':' keeps the alphabet. */
  lemma AlphabetConcat(a: string, b: string)
    requires ClockAlphabet(a) && ClockAlphabet(b)
    ensures ClockAlphabet(a + b)
  {
    forall i | 0 <= i < |a + b|
      ensures IsDigit((a + b)[i]) || (a + b)[i] == ':'
    {
      if i < |a| {
        assert (a + b)[i] == a[i];
      } else {
        assert (a + b)[i] == b[i - |a|];
      }
    }
  }

  /** A padded field and its group use digits and ':' only. */
  lemma GroupAlphabet(n: nat)
    ensures ClockAlphabet(Pad2(n)) && ClockAlphabet(Group(n))
  {
    var p := Pad2(n);
    assert forall i :: 0 <= i < |p| ==> IsDigit(p[i]);
    assert ClockAlphabet(":");
    AlphabetConcat(p, ":");
  }

  lemma ClockUsesDigitsAndColons(d: nat, h: nat, m: nat, s: nat)
    ensures ClockAlphabet(ClockOf(d, h, m, s))
    ensures |ClockOf(d, h, m, s)| >= 11
  {
    GroupAlphabet(d);
    GroupAlphabet(h);
    GroupAlphabet(m);
    GroupAlphabet(s);
    AlphabetConcat(Group(m), Pad2(s));
    AlphabetConcat(Group(h), Group(m) + Pad2(s));
    AlphabetConcat(Group(d), Group(h) + (Group(m) + Pad2(s)));
  }

  /** A suffix keeps the alphabet. */
  lemma SuffixAlphabet(s: string, k: nat)
    requires ClockAlphabet(s) && k <= |s|
    ensures ClockAlphabet(s[k..])
  {
    assert forall i :: 0 <= i < |s| - k ==> s[k..][i] == s[k + i];
  }

  /** A group is the zero group exactly for the value 0. */
  lemma GroupIsZeroGroup(n: nat)
    ensures Group(n)[..3] == ZeroGroup <==> n == 0
    ensures n == 0 ==> Group(n) == ZeroGroup
  {
    var t := NatToString(n);
    assert ZeroGroup == ['0', '0', ':'];
    if n == 0 {
      assert t == "0";
      assert Group(0) == "00:";
    } else if |t| >= 2 {
      assert Group(n)[..3][0] == t[0];
      assert t[0] != '0';
    } else {
      assert Group(n) == "0" + t + ":";
      assert Group(n)[..3][1] == t[0];
      assert t[0] != '0';
    }
  }

  /** What the loop body does: strip_prefix("00:") when it applies, nothing otherwise. */
  function StripStep(f: string): (g: string)
    ensures |g| <= |f|
    ensures g != f ==> |f| >= 3 && f[..3] == ZeroGroup && g == f[3..]
  {
    if |f| >= 3 && f[..3] == ZeroGroup then f[3..] else f
  }

  /** The string after `k` turns of `while len > 5 { ... }`, stopping when the guard fails. */
  function Iterate(f: string, k: nat): string
  {
    if k == 0 || |f| <= 5 then f else Iterate(StripStep(f), k - 1)
  }

  /** A string the body does not change stays forever once the guard holds. */
  lemma {:induction false} IterateFixpoint(f: string, k: nat)
    requires |f| > 5 && StripStep(f) == f
    ensures Iterate(f, k) == f
  {
    if k > 0 {
      IterateFixpoint(f, k - 1);
    }
  }

  /** Dividing by 3600 is dividing by 60 twice. */
  lemma HoursOfMinutes(secs: nat)
    ensures secs / 3600 == secs / 60 / 60
  {
  }

  /** Dividing by 86400 is dividing the hours by 24. */
  lemma DaysOfHours(secs: nat)
    ensures secs / 86400 == secs / 3600 / 24
  {
  }

  /** Every duration splits into whole days and three fields below a day. */
  lemma SplitSeconds(secs: nat)
    ensures secs == (secs / 86400) * 86400 + (secs / 3600 % 24) * 3600 + (secs / 60 % 60) * 60 + secs % 60
    ensures secs / 3600 % 24 < 24 && secs / 60 % 60 < 60 && secs % 60 < 60
    ensures secs / 86400 <= secs
  {
    var q, r := secs / 60, secs % 60;
    assert secs == 60 * q + r;
    HoursOfMinutes(secs);
    var hours := secs / 3600;
    assert q == 60 * hours + q % 60;
    DaysOfHours(secs);
    var days := secs / 86400;
    assert hours == 24 * days + hours % 24;
  }

  /** Under an hour the days and hours fields are zero; under a day the days field is. */
  lemma LeadingFields(secs: nat)
    ensures secs < 86400 ==> secs / 86400 == 0
    ensures secs < 3600 ==> secs / 3600 % 24 == 0
    ensures secs >= 3600 ==> secs / 86400 > 0 || secs / 3600 % 24 > 0
  {
  }

  /**
   * The loop's shape argument: a leading group that is not "00:" stops the
   * stripping at once; a "00:" group followed by one that is not stops it after one
   * turn. Either way more than five characters remain.
   */
  lemma {:induction false} StripsAtMostOnce(first: string, second: string, rest: string, k: nat)
    requires |first| >= 3 && |second| >= 3 && |rest| >= 5
    requires first[..3] != ZeroGroup || (first == ZeroGroup && second[..3] != ZeroGroup)
    ensures |Iterate(first + (second + rest), k)| > 5
  {
    var full := first + (second + rest);
    assert full[..3] == first[..3];
    if first[..3] != ZeroGroup {
      IterateFixpoint(full, k);
    } else if k > 0 {
      var tail := second + rest;
      assert full == ZeroGroup + tail;
      assert full[3..] == tail;
      assert tail[..3] == second[..3];
      assert Iterate(full, k) == Iterate(tail, k - 1);
      IterateFixpoint(tail, k - 1);
    }
  }

  /** The loop as written never ends on a rendering whose days or hours are not zero. */
  lemma StrippingNeverEnds(d: nat, h: nat, m: nat, s: nat, k: nat)
    requires d > 0 || h > 0
    ensures |Iterate(ClockOf(d, h, m, s), k)| > 5
  {
    GroupIsZeroGroup(d);
    GroupIsZeroGroup(h);
    StripsAtMostOnce(Group(d), Group(h), Group(m) + Pad2(s), k);
  }

  /**
   * As written, `format_duration(d, None)` never returns for d of an hour or more:
   * after any number of turns the string is still longer than five characters, so
   * the loop guard still holds (e.g. 3600 s reaches "01:00:00" and stays there).
   */
  lemma FormatDurationNeverEnds(secs: nat, k: nat)
    requires secs >= 3600
    ensures |Iterate(Clock(secs), k)| > 5
  {
    LeadingFields(secs);
    StrippingNeverEnds(secs / 86400, secs / 3600 % 24, secs / 60 % 60, secs % 60, k);
  }

  /** The rendering without its leading zero groups, but never shorter than "mm:ss". */
  function TrimmedOf(d: nat, h: nat, m: nat, s: nat): string
  {
    if d > 0 then ClockOf(d, h, m, s)
    else if h > 0 then Group(h) + (Group(m) + Pad2(s))
    else Group(m) + Pad2(s)
  }

  /** "mm:ss" below an hour, "hh:mm:ss" below a day, "dd:hh:mm:ss" otherwise. */
  function ClockTrimmed(secs: nat): string
  {
    TrimmedOf(secs / 86400, secs / 3600 % 24, secs / 60 % 60, secs % 60)
  }

  /** Where the hours and the minutes start in a rendering, from its end. */
  lemma {:induction false} GroupsShape(days: string, hour: string, minutes: string)
    requires |days| >= 3 && |hour| == 3 && |minutes| == 5
    ensures var hours := hour + minutes;
            var full := days + hours;
            && |hours| == 8 && |full| >= 11
            && full[..3] == days[..3] && hours[..3] == hour
            && hours == full[|full| - 8..] && minutes == full[|full| - 5..]
  {
    var hours := hour + minutes;
    var full := days + hours;
    assert hours == full[|full| - 8..];
    assert minutes == hours[3..];
  }

  /**
   * The rendering as its leading groups: which of its suffixes start with the zero
   * group, and which suffix is the trimmed form.
   */
  lemma ClockParts(d: nat, h: nat, m: nat, s: nat)
    requires h < 24 && m < 60 && s < 60
    ensures var minutes := Group(m) + Pad2(s);
            var hours := Group(h) + minutes;
            var full := ClockOf(d, h, m, s);
            && full == Group(d) + hours
            && |minutes| == 5 && |hours| == 8 && |full| >= 11
            && (full[..3] == ZeroGroup <==> d == 0) && (hours[..3] == ZeroGroup <==> h == 0)
            && hours == full[|full| - 8..] && minutes == full[|full| - 5..]
  {
    var minutes := Group(m) + Pad2(s);
    var hours := Group(h) + minutes;
    GroupIsZeroGroup(d);
    GroupIsZeroGroup(h);
    GroupsShape(Group(d), Group(h), minutes);
  }

  /** A "00:" group in front of `x` is what the loop strips, leaving `x`. */
  lemma ZeroGroupPrefix(x: string)
    ensures |ZeroGroup + x| == |x| + 3
    ensures (ZeroGroup + x)[..3] == ZeroGroup && (ZeroGroup + x)[3..] == x
  {
  }

  /** Under an hour the rendering is two "00:" groups in front of "mm:ss". */
  lemma ShortRendering(secs: nat)
    requires secs < 3600
    ensures var minutes := Group(secs / 60 % 60) + Pad2(secs % 60);
            && Clock(secs) == ZeroGroup + (ZeroGroup + minutes)
            && |minutes| == 5 && ClockTrimmed(secs) == minutes && ClockAlphabet(minutes)
  {
    var d, h, m, s := secs / 86400, secs / 3600 % 24, secs / 60 % 60, secs % 60;
    LeadingFields(secs);
    GroupIsZeroGroup(0);
    GroupAlphabet(m);
    GroupAlphabet(s);
    AlphabetConcat(Group(m), Pad2(s));
  }

  /**
   * `format_duration` as written. With a length, the last `length` characters
   * (a longer length underflows the subtraction and panics); without one, only
   * durations under an hour: longer ones loop forever (`FormatDurationNeverEnds`).
   */
  method FormatDuration(secs: nat, length: Option<nat>) returns (f: string)
    requires length.Some? ==> length.value <= |Clock(secs)|
    requires length.None? ==> secs < 3600
    ensures length.Some? ==> |f| == length.value && f == Clock(secs)[|Clock(secs)| - length.value..]
    ensures length.None? ==> |f| == 5 && f == ClockTrimmed(secs)
    ensures ClockAlphabet(f)
  {
    f := Clock(secs);
    if length.Some? {
      ClockUsesDigitsAndColons(secs / 86400, secs / 3600 % 24, secs / 60 % 60, secs % 60);
      SuffixAlphabet(f, |f| - length.value);
      f := f[|f| - length.value..];
    } else {
      ShortRendering(secs);
      var minutes := Group(secs / 60 % 60) + Pad2(secs % 60);
      ZeroGroupPrefix(ZeroGroup + minutes);
      ZeroGroupPrefix(minutes);
      while |f| > 5
        invariant f == ZeroGroup + (ZeroGroup + minutes) || f == ZeroGroup + minutes || f == minutes
        decreases |f|
      {
        if |f| >= 3 && f[..3] == ZeroGroup {
          f := f[3..];
        }
      }
    }
  }

  /**
   * `format_duration` with the stripping loop stopped once no "00:" group leads:
   * the terminating behaviour the loop evidently intends.
   */
  method FormatDurationCorrected(secs: nat, length: Option<nat>) returns (f: string)
    requires length.Some? ==> length.value <= |Clock(secs)|
    ensures length.Some? ==> |f| == length.value && f == Clock(secs)[|Clock(secs)| - length.value..]
    ensures length.None? ==> f == ClockTrimmed(secs)
    ensures length.None? ==> |f| >= 5 && (|f| > 5 ==> f[..3] != ZeroGroup)
    ensures ClockAlphabet(f)
  {
    f := Clock(secs);
    ghost var d, h, m, s := secs / 86400, secs / 3600 % 24, secs / 60 % 60, secs % 60;
    ClockUsesDigitsAndColons(d, h, m, s);
    if length.Some? {
      SuffixAlphabet(f, |f| - length.value);
      f := f[|f| - length.value..];
      return;
    }
    ghost var full := f;
    SplitSeconds(secs);
    ClockParts(d, h, m, s);
    while |f| > 5 && f[..3] == ZeroGroup
      invariant f == full || (d == 0 && f == full[|full| - 8..]) || (d == 0 && h == 0 && f == full[|full| - 5..])
      decreases |f|
    {
      f := f[3..];
    }
    SuffixAlphabet(full, |full| - |f|);
  }

  /** Rendering a field with padding and reading it back as a `u64` gives the field. */
  lemma Pad2ParsesBack(n: nat)
    requires n <= U64Max
    ensures ParseU64(Pad2(n)) == Some(n)
    ensures ':' !in Pad2(n)
  {
    var t := NatToString(n);
    NatToStringRoundTrip(n);
    if |t| < 2 {
      LeadingZero(t);
    }
  }

  /** Below a day, the trimmed rendering read back by `string_to_duration` is h·3600 + m·60 + s. */
  lemma TrimmedFieldsReadBack(h: nat, m: nat, s: nat)
    requires h < 24 && m < 60 && s < 60
    ensures YoutubeScraper.SectionsValue(Split(TrimmedOf(0, h, m, s), ':')) == h * 3600 + m * 60 + s
  {
    Pad2ParsesBack(m);
    Pad2ParsesBack(s);
    if h == 0 {
      var a, b := Pad2(m), Pad2(s);
      var t := TrimmedOf(0, h, m, s);
      assert t == a + [':'] + b;
      SplitAtSeparator(a, b, ':');
      SplitWithoutSeparator(b, ':');
      var parts := [a, b];
      assert Split(t, ':') == parts;
      assert parts[1..] == [b] && [b][1..] == [];
      assert YoutubeScraper.Pow60(1) == 60 && YoutubeScraper.Pow60(0) == 1;
      assert YoutubeScraper.SectionsValue([b]) == s;
      assert YoutubeScraper.SectionsValue(parts) == m * 60 + s;
    } else {
      Pad2ParsesBack(h);
      assert TrimmedOf(0, h, m, s) == Pad2(h) + ":" + Pad2(m) + ":" + Pad2(s);
      YoutubeScraper.ThreeSections(Pad2(h), Pad2(m), Pad2(s));
    }
  }

  /**
   * `string_to_duration` reads back what the corrected `format_duration` renders
   * without a length, for every duration under a day.
   */
  lemma TrimmedReadsBack(secs: nat)
    requires secs < 86400
    ensures YoutubeScraper.SectionsValue(Split(ClockTrimmed(secs), ':')) == secs
  {
    SplitSeconds(secs);
    LeadingFields(secs);
    TrimmedFieldsReadBack(secs / 3600 % 24, secs / 60 % 60, secs % 60);
  }

  /** Four texts without ':' joined by ':' split back into the four. */
  lemma {:induction false} SplitFour(a: string, b: string, c: string, e: string)
    requires ':' !in a && ':' !in b && ':' !in c && ':' !in e
    ensures Split((a + ":") + ((b + ":") + ((c + ":") + e)), ':') == [a, b, c, e]
  {
    assert (a + ":") + ((b + ":") + ((c + ":") + e)) == a + [':'] + (b + [':'] + (c + [':'] + e));
    SplitAtSeparator(a, b + [':'] + (c + [':'] + e), ':');
    SplitAtSeparator(b, c + [':'] + e, ':');
    SplitAtSeparator(c, e, ':');
    SplitWithoutSeparator(e, ':');
  }

  /** A padded field holds no ':'. */
  lemma Pad2HasNoColon(n: nat)
    ensures ':' !in Pad2(n)
  {
    var p := Pad2(n);
    forall i | 0 <= i < |p|
      ensures p[i] != ':'
    {
      assert IsDigit(p[i]);
    }
  }

  /** The full rendering splits at ':' into its four padded fields. */
  lemma ClockFields(d: nat, h: nat, m: nat, s: nat)
    ensures Split(ClockOf(d, h, m, s), ':') == [Pad2(d), Pad2(h), Pad2(m), Pad2(s)]
  {
    Pad2HasNoColon(d);
    Pad2HasNoColon(h);
    Pad2HasNoColon(m);
    Pad2HasNoColon(s);
    SplitFour(Pad2(d), Pad2(h), Pad2(m), Pad2(s));
  }

  /** The four sections read back with the weights 60^3, 60^2, 60 and 1. */
  lemma {:induction false} ClockFieldsReadBack(d: nat, h: nat, m: nat, s: nat)
    requires d <= U64Max && h <= U64Max && m <= U64Max && s <= U64Max
    ensures YoutubeScraper.SectionsValue(Split(ClockOf(d, h, m, s), ':')) == d * 216000 + h * 3600 + m * 60 + s
  {
    ClockFields(d, h, m, s);
    Pad2ParsesBack(d);
    Pad2ParsesBack(h);
    Pad2ParsesBack(m);
    Pad2ParsesBack(s);
    var parts := [Pad2(d), Pad2(h), Pad2(m), Pad2(s)];
    var tail := [Pad2(h), Pad2(m), Pad2(s)];
    assert parts[1..] == tail && tail[1..] == [Pad2(m), Pad2(s)] && tail[1..][1..] == [Pad2(s)];
    assert [Pad2(s)][1..] == [];
    assert YoutubeScraper.Pow60(0) == 1 && YoutubeScraper.Pow60(1) == 60;
    assert YoutubeScraper.Pow60(2) == 3600 && YoutubeScraper.Pow60(3) == 216000;
    assert YoutubeScraper.SectionsValue([Pad2(s)]) == s;
    assert YoutubeScraper.SectionsValue([Pad2(m), Pad2(s)]) == m * 60 + s;
    assert YoutubeScraper.SectionsValue(tail) == h * 3600 + m * 60 + s;
  }

  /**
   * `string_to_duration` weighs a fourth section by 60^3, not by the 86 400 seconds
   * of a day: the full "dd:hh:mm:ss" rendering reads back as more than the duration
   * as soon as it reaches a day.
   */
  lemma ClockDaysReadAsSixtyCubed(secs: nat)
    requires secs <= U64Max
    ensures YoutubeScraper.SectionsValue(Split(Clock(secs), ':')) == secs + (secs / 86400) * 129600
  {
    SplitSeconds(secs);
    ClockFieldsReadBack(secs / 86400, secs / 3600 % 24, secs / 60 % 60, secs % 60);
  }
}
