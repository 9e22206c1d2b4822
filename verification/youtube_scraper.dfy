/**
 * Scraping the first search result out of YouTube's results page
 * (src/youtube_scraper.rs). The page fetch and the HTML `script` selection are
 * foreign: `search` is modelled from the list of script bodies onwards. Every
 * parser is a chain of nom `take_until` steps; a failed step is `None`.
 */
module YoutubeScraper {
  import opened Wrappers
  import opened Text

  const Quote: string := "\""
  const BracketQuote: string := "\"}"
  const EscapedQuote: string := "\\\""
  const VideoIdKey: string := "\"videoId\"" + ":"
  const TitleKey: string := "\"title\"" + ":"
  const TextKey: string := "\"text\"" + ":"
  const LengthTextKey: string := "\"lengthText\"" + ":"
  const SimpleTextKey: string := "\"simpleText\"" + ":"
  /** The script that holds the search results starts its data with this. */
  const InitialDataMarker: string := "var ytInitialData = "
  const SearchPage: string := "https://www.youtube.com/results?search_query="

  /** `parse_quotes`: the text between the first two '"', the rest from the second. */
  function ParseQuotes(input: string): (r: Option<Parsed<string>>)
    ensures r.Some? ==> '"' in input && '"' !in r.value.matched && OccursAt(r.value.remainder, Quote, 0)
  {
    TakeUntilChar('"', input);
    match TakeUntil(Quote, input)
    case None => None
    case Some(p) =>
      TakeUntilChar('"', p.remainder[1..]);
      TakeUntil(Quote, p.remainder[1..])
  }

  /** `parse_bracket_quotes`: from after the first '"' up to the next `"}`. */
  function ParseBracketQuotes(input: string): (r: Option<Parsed<string>>)
    ensures r.Some? ==> '"' in input && OccursAt(r.value.remainder, BracketQuote, 0)
  {
    TakeUntilChar('"', input);
    match TakeUntil(Quote, input)
    case None => None
    case Some(p) => TakeUntil(BracketQuote, p.remainder[1..])
  }

  /** `parse_colon`: the text after the first ':' and the text before it. */
  function ParseColon(input: string): (r: Option<Parsed<string>>)
    ensures r.Some? <==> ':' in input
    ensures r.Some? ==> ':' !in r.value.matched && input == r.value.matched + (":" + r.value.remainder)
  {
    TakeUntilChar(':', input);
    match TakeUntil(":", input)
    case None => None
    case Some(p) =>
      assert p.remainder == ":" + p.remainder[1..];
      Some(Parsed(p.remainder[1..], p.matched))
  }

  /**
   * `parse_title`: after the first `"title":`, then the first `"text":`, its colon,
   * the bracket-quoted text, with every `\"` turned into `"`.
   */
  function ParseTitle(input: string): (r: Option<Parsed<string>>)
    ensures r.Some? ==> (exists i: nat :: OccursAt(input, TitleKey, i)) &&
                        OccursAt(r.value.remainder, BracketQuote, 0)
  {
    match TakeUntil(TitleKey, input)
    case None => None
    case Some(p) =>
      TakeUntilOccurrence(TitleKey, input);
      match TakeUntil(TextKey, p.remainder)
      case None => None
      case Some(q) =>
        match ParseColon(q.remainder)
        case None => None
        case Some(c) =>
          match ParseBracketQuotes(c.remainder)
          case None => None
          case Some(b) => Some(Parsed(b.remainder, Replace(b.matched, EscapedQuote, Quote)))
  }

  /** `parse_video_id`: the quoted text after the first `"videoId":`. */
  function ParseVideoId(input: string): (r: Option<Parsed<string>>)
    ensures r.Some? ==> (exists i: nat :: OccursAt(input, VideoIdKey, i)) &&
                        '"' !in r.value.matched && OccursAt(r.value.remainder, Quote, 0)
  {
    match TakeUntil(VideoIdKey, input)
    case None => None
    case Some(p) =>
      TakeUntilOccurrence(VideoIdKey, input);
      match ParseColon(p.remainder)
      case None => None
      case Some(c) => ParseQuotes(c.remainder)
  }

  /** `parse_duration_text`: the quoted text after `"lengthText":` and then `"simpleText":`. */
  function ParseDurationText(input: string): (r: Option<Parsed<string>>)
    ensures r.Some? ==> (exists i: nat :: OccursAt(input, LengthTextKey, i)) &&
                        '"' !in r.value.matched && OccursAt(r.value.remainder, Quote, 0)
  {
    match TakeUntil(LengthTextKey, input)
    case None => None
    case Some(p) =>
      TakeUntilOccurrence(LengthTextKey, input);
      match TakeUntil(SimpleTextKey, p.remainder)
      case None => None
      case Some(q) =>
        match ParseColon(q.remainder)
        case None => None
        case Some(c) => ParseQuotes(c.remainder)
  }

  /** The single-character case of `TakeUntilAt`. */
  lemma TakeUntilFirstChar(c: char, a: string, rest: string)
    requires c !in a && |rest| > 0 && rest[0] == c
    ensures TakeUntil([c], a + rest) == Some(Parsed(rest, a))
  {
    assert rest[0..1] == [c];
    forall j: nat | j < |a| ensures !OccursAt(a + rest, [c], j) {
      assert (a + rest)[j] == a[j];
    }
    TakeUntilAt([c], a, rest);
  }

  /** `parse_colon` splits at the first ':' and fails when there is none. */
  lemma ParseColonSplits(a: string, b: string, s: string)
    requires ':' !in a
    ensures ParseColon(a + (":" + b)) == Some(Parsed(b, a))
    ensures ':' !in s ==> ParseColon(s) == None
  {
    TakeUntilFirstChar(':', a, ":" + b);
    DropHead(':', b);
    if ':' !in s {
      TakeUntilChar(':', s);
    }
  }

  /**
   * `parse_quotes` on a text with two or more '"': the text between the first two,
   * and the rest from the second.
   */
  lemma ParseQuotesSplits(a: string, b: string, c: string)
    requires '"' !in a && '"' !in b
    ensures ParseQuotes(a + (Quote + (b + (Quote + c)))) == Some(Parsed(Quote + c, b))
  {
    TakeUntilFirstChar('"', a, Quote + (b + (Quote + c)));
    DropHead('"', b + (Quote + c));
    TakeUntilFirstChar('"', b, Quote + c);
  }

  /** `parse_quotes` fails on a text with fewer than two '"'. */
  lemma ParseQuotesNeedsTwo(a: string, b: string)
    requires '"' !in a && '"' !in b
    ensures ParseQuotes(a + (Quote + b)) == None
    ensures ParseQuotes(a) == None
  {
    TakeUntilFirstChar('"', a, Quote + b);
    DropHead('"', b);
    TakeUntilChar('"', b);
    TakeUntilChar('"', a);
  }

  /**
   * `parse_bracket_quotes`: from just after the first '"' up to the first `"}`
   * that follows it.
   */
  lemma ParseBracketQuotesSplits(a: string, b: string, c: string)
    requires '"' !in a
    requires forall j: nat :: j < |b| ==> !OccursAt(b + (BracketQuote + c), BracketQuote, j)
    ensures ParseBracketQuotes(a + (Quote + (b + (BracketQuote + c)))) == Some(Parsed(BracketQuote + c, b))
  {
    TakeUntilFirstChar('"', a, Quote + (b + (BracketQuote + c)));
    DropHead('"', b + (BracketQuote + c));
    OccursAtStart(BracketQuote, c);
    TakeUntilAt(BracketQuote, b, BracketQuote + c);
  }

  /** A key of the form `"name":` followed by `rest`: parse_colon leaves exactly `rest`. */
  lemma ColonAfterKey(key: string, rest: string)
    requires key in {VideoIdKey, TextKey, SimpleTextKey}
    ensures ParseColon(key + rest).Some? && ParseColon(key + rest).value.remainder == rest
  {
    var name := key[..|key| - 1];
    assert key == name + ":";
    assert ':' !in name;
    ConcatAssoc(name, ":", rest);
    ParseColonSplits(name, rest, rest);
  }

  /** `key` occurs in `a + key + rest` first at |a|. */
  predicate FirstAt(a: string, key: string, rest: string)
  {
    forall j: nat :: j < |a| ==> !OccursAt(a + (key + rest), key, j)
  }

  /** The key of a `take_until` followed by its remainder. */
  lemma TakeUntilKey(a: string, key: string, rest: string)
    requires FirstAt(a, key, rest)
    ensures TakeUntil(key, a + (key + rest)) == Some(Parsed(key + rest, a))
  {
    OccursAtStart(key, rest);
    TakeUntilAt(key, a, key + rest);
  }

  /** `parse_video_id` reads the quoted text right after the first `"videoId":`. */
  lemma ParseVideoIdAfterKey(a: string, rest: string)
    requires FirstAt(a, VideoIdKey, rest)
    ensures ParseVideoId(a + (VideoIdKey + rest)) == ParseQuotes(rest)
  {
    TakeUntilKey(a, VideoIdKey, rest);
    ColonAfterKey(VideoIdKey, rest);
  }

  /** Without a `"videoId":` there is no video id. */
  lemma ParseVideoIdNeedsKey(input: string)
    requires forall j: nat :: !OccursAt(input, VideoIdKey, j)
    ensures ParseVideoId(input) == None
  {
    if TakeUntil(VideoIdKey, input).Some? {
      TakeUntilOccurrence(VideoIdKey, input);
    }
  }

  /**
   * `parse_duration_text` reads the quoted text right after the first
   * `"simpleText":` that follows the first `"lengthText":`.
   */
  lemma ParseDurationTextAfterKeys(a: string, b: string, rest: string)
    requires FirstAt(a, LengthTextKey, b + (SimpleTextKey + rest))
    requires FirstAt(LengthTextKey + b, SimpleTextKey, rest)
    ensures ParseDurationText(a + (LengthTextKey + (b + (SimpleTextKey + rest)))) == ParseQuotes(rest)
  {
    var afterLength := LengthTextKey + (b + (SimpleTextKey + rest));
    TakeUntilKey(a, LengthTextKey, b + (SimpleTextKey + rest));
    ConcatAssoc(LengthTextKey, b, SimpleTextKey + rest);
    TakeUntilKey(LengthTextKey + b, SimpleTextKey, rest);
    ParseDurationTextFromSimple(a + afterLength, afterLength, a, LengthTextKey + b, rest);
  }

  /** `parse_duration_text` once both keys are found: the rest after `"simpleText":` decides. */
  lemma ParseDurationTextFromSimple(input: string, afterLength: string, a: string, b: string, rest: string)
    requires TakeUntil(LengthTextKey, input) == Some(Parsed(afterLength, a))
    requires TakeUntil(SimpleTextKey, afterLength) == Some(Parsed(SimpleTextKey + rest, b))
    ensures ParseDurationText(input) == ParseQuotes(rest)
  {
    ColonAfterKey(SimpleTextKey, rest);
  }

  /**
   * `parse_title` reads the bracket-quoted text right after the first `"text":`
   * that follows the first `"title":`, and unescapes its quotes.
   */
  lemma ParseTitleAfterKeys(a: string, b: string, rest: string)
    requires FirstAt(a, TitleKey, b + (TextKey + rest))
    requires FirstAt(TitleKey + b, TextKey, rest)
    ensures ParseTitle(a + (TitleKey + (b + (TextKey + rest)))) ==
            match ParseBracketQuotes(rest)
            case None => None
            case Some(q) => Some(Parsed(q.remainder, Replace(q.matched, EscapedQuote, Quote)))
  {
    var afterTitle := TitleKey + (b + (TextKey + rest));
    TakeUntilKey(a, TitleKey, b + (TextKey + rest));
    ConcatAssoc(TitleKey, b, TextKey + rest);
    TakeUntilKey(TitleKey + b, TextKey, rest);
    ParseTitleFromText(a + afterTitle, afterTitle, a, TitleKey + b, rest);
  }

  /** `parse_title` once both keys are found: the rest after `"text":` decides. */
  lemma ParseTitleFromText(input: string, afterTitle: string, a: string, b: string, rest: string)
    requires TakeUntil(TitleKey, input) == Some(Parsed(afterTitle, a))
    requires TakeUntil(TextKey, afterTitle) == Some(Parsed(TextKey + rest, b))
    ensures ParseTitle(input) ==
            match ParseBracketQuotes(rest)
            case None => None
            case Some(q) => Some(Parsed(q.remainder, Replace(q.matched, EscapedQuote, Quote)))
  {
    ColonAfterKey(TextKey, rest);
  }

  /** Escaping every '"' as `\"`: how a JSON string literal carries a title. */
  function Escape(s: string): string
  {
    Replace(s, Quote, EscapedQuote)
  }

  /** `parse_title`'s unescaping gives back any title without a backslash. */
  lemma {:induction false} UnescapeEscape(s: string)
    requires '\\' !in s
    ensures Replace(Escape(s), EscapedQuote, Quote) == s
    decreases |s|
  {
    assert EscapedQuote == ['\\', '"'] && Quote == ['"'];
    if s != [] {
      assert s[0] != '\\';
      UnescapeEscape(s[1..]);
      var e := Escape(s[1..]);
      if s[0] == '"' {
        assert OccursAt(s, Quote, 0);
        assert Escape(s) == EscapedQuote + e;
        assert OccursAt(EscapedQuote + e, EscapedQuote, 0);
        assert (EscapedQuote + e)[2..] == e;
        assert s == Quote + s[1..];
      } else {
        assert !OccursAt(s, Quote, 0);
        assert Escape(s) == [s[0]] + e;
        var x := [s[0]] + e;
        assert |x| < 2 || x[0..2][0] == s[0];
        assert !OccursAt(x, EscapedQuote, 0);
        assert x[1..] == e;
        assert s == [s[0]] + s[1..];
      }
    }
  }

  /** 60 to the power `k`. */
  function Pow60(k: nat): (r: nat)
    ensures r >= 1
  {
    if k == 0 then 1 else 60 * Pow60(k - 1)
  }

  /** A section's value: its `u64` reading, 0 when it does not parse. */
  function SectionValue(section: string): nat
  {
    match ParseU64(section)
    case Some(v) => v
    case None => 0
  }

  /** The sum of each section's value times 60 to the power of its distance from the end. */
  function SectionsValue(sections: seq<string>): nat
  {
    if sections == [] then 0
    else Weighted(SectionValue(sections[0]), |sections| - 1) + SectionsValue(sections[1..])
  }

  /** A section's contribution: its value times 60 to the power `k`. */
  function Weighted(v: nat, k: nat): nat
  {
    v * Pow60(k)
  }

  /** `string_to_duration`: ':'-separated sections read right to left, in whole seconds. */
  method StringToDuration(input: string) returns (seconds: nat)
    ensures seconds == SectionsValue(Split(input, ':'))
  {
    var sections := Split(input, ':');
    seconds := 0;
    var multiplier := 1;
    var i := |sections|;
    while i > 0
      invariant 0 <= i <= |sections|
      invariant multiplier == Pow60(|sections| - i)
      invariant seconds == SectionsValue(sections[i..])
    {
      i := i - 1;
      SectionsValueFrom(sections, i);
      var parsed := ParseU64(sections[i]);
      if parsed.Some? {
        seconds := seconds + parsed.value * multiplier;
      }
      multiplier := multiplier * 60;
    }
    assert sections[0..] == sections;
  }

  /** Reading from section `i` on: section `i` weighted by the sections after it, plus those. */
  lemma SectionsValueFrom(sections: seq<string>, i: nat)
    requires i < |sections|
    ensures SectionsValue(sections[i..])
            == Weighted(SectionValue(sections[i]), |sections| - i - 1) + SectionsValue(sections[i + 1..])
  {
    assert sections[i..][1..] == sections[i + 1..];
  }

  /** Appending a section multiplies the value so far by 60 and adds the new section. */
  lemma {:induction false} SectionsValueAppend(sections: seq<string>, last: string)
    ensures SectionsValue(sections + [last]) == 60 * SectionsValue(sections) + SectionValue(last)
    decreases |sections|
  {
    if sections == [] {
      AppendHeadTail([last], []);
      assert [] + [last] == [last];
    } else {
      var rest := sections[1..];
      SectionsValueAppend(rest, last);
      AppendHeadTail(sections, [last]);
      var v := SectionValue(sections[0]);
      var p := Pow60(|sections| - 1);
      assert Pow60(|sections|) == 60 * p;
      ShiftOneSection(v, p, SectionsValue(rest), SectionValue(last));
    }
  }

  lemma ShiftOneSection(v: nat, p: nat, r: nat, l: nat)
    ensures v * (60 * p) + (60 * r + l) == 60 * (v * p + r) + l
  {
  }

  /**
   * A section that does not parse contributes nothing but still moves the earlier
   * sections one place up; an empty input is zero seconds.
   */
  lemma UnparsableSectionCountsZero(sections: seq<string>, bad: string)
    requires ParseU64(bad).None?
    ensures SectionsValue(sections + [bad]) == 60 * SectionsValue(sections)
    ensures SectionsValue(Split("", ':')) == 0
  {
    SectionsValueAppend(sections, bad);
  }

  /** "h:mm:ss"-style text with sections `hours`, `minutes`, `seconds` read back. */
  lemma ThreeSections(h: string, m: string, s: string)
    requires ':' !in h && ':' !in m && ':' !in s
    ensures SectionsValue(Split(h + ":" + m + ":" + s, ':')) ==
            SectionValue(h) * 3600 + SectionValue(m) * 60 + SectionValue(s)
  {
    assert h + ":" + m + ":" + s == h + [':'] + (m + [':'] + s);
    SplitAtSeparator(h, m + [':'] + s, ':');
    SplitAtSeparator(m, s, ':');
    SplitWithoutSeparator(s, ':');
    var parts := [h, m, s];
    assert Split(h + ":" + m + ":" + s, ':') == parts;
    assert parts[1..] == [m, s] && parts[1..][1..] == [s] && parts[1..][1..][1..] == [];
    assert Pow60(0) == 1 && Pow60(1) == 60 && Pow60(2) == 3600;
    assert SectionsValue([s]) == SectionValue(s);
    assert SectionsValue([m, s]) == SectionValue(m) * 60 + SectionValue(s);
  }

  /** The index of the first script holding the initial-data marker. */
  function FirstMarked(scripts: seq<string>): (r: Option<nat>)
    ensures r.Some? ==> r.value < |scripts| && Contains(scripts[r.value], InitialDataMarker)
    ensures r.Some? ==> forall j :: 0 <= j < r.value ==> !Contains(scripts[j], InitialDataMarker)
    ensures r.None? ==> forall j :: 0 <= j < |scripts| ==> !Contains(scripts[j], InitialDataMarker)
  {
    if scripts == [] then None
    else if Contains(scripts[0], InitialDataMarker) then Some(0)
    else match FirstMarked(scripts[1..])
      case None => None
      case Some(k) => Some(k + 1)
  }

  /** What `search` returns for one script: (title, video id, duration). */
  datatype Found = Found(title: Option<string>, videoId: Option<string>, duration: Option<nat>)

  /**
   * The extraction from the marked script: the video id first; if found, title and
   * duration are looked for only after it.
   */
  function ScriptFound(html: string): Found
  {
    var vid := ParseVideoId(html);
    var rest := if vid.Some? then vid.value.remainder else html;
    var t := ParseTitle(rest);
    var d := ParseDurationText(rest);
    Found(if t.Some? then Some(t.value.matched) else None,
          if vid.Some? then Some(vid.value.matched) else None,
          if d.Some? then Some(SectionsValue(Split(d.value.matched, ':'))) else None)
  }

  /** `search` from the script bodies on: only the first marked script is read. */
  function SearchFound(scripts: seq<string>): Found
  {
    match FirstMarked(scripts)
    case None => Found(None, None, None)
    case Some(k) => ScriptFound(scripts[k])
  }

  /** The body of `search`'s loop once the marked script is found. */
  method ExtractFromScript(script: string) returns (found: Found)
    ensures found == ScriptFound(script)
  {
    var html := script;
    var title: Option<string> := None;
    var videoId: Option<string> := None;
    var duration: Option<nat> := None;
    var vid := ParseVideoId(html);
    if vid.Some? {
      videoId := Some(vid.value.matched);
      html := vid.value.remainder;
    }
    var t := ParseTitle(html);
    if t.Some? {
      title := Some(t.value.matched);
    }
    var d := ParseDurationText(html);
    if d.Some? {
      var seconds := StringToDuration(d.value.matched);
      duration := Some(seconds);
    }
    found := Found(title, videoId, duration);
  }

  /** The loop of `search` over the page's scripts. */
  method SearchScripts(scripts: seq<string>) returns (found: Found)
    ensures found == SearchFound(scripts)
  {
    found := Found(None, None, None);
    var i := 0;
    while i < |scripts|
      invariant 0 <= i <= |scripts|
      invariant forall j :: 0 <= j < i ==> !Contains(scripts[j], InitialDataMarker)
      invariant found == Found(None, None, None)
    {
      if Contains(scripts[i], InitialDataMarker) {
        assert FirstMarked(scripts) == Some(i);
        found := ExtractFromScript(scripts[i]);
        break;
      }
      i := i + 1;
    }
  }

  /** Appending scripts after a marked one does not move the first marked script. */
  lemma {:induction false} FirstMarkedAppend(scripts: seq<string>, more: seq<string>)
    requires FirstMarked(scripts).Some?
    ensures FirstMarked(scripts + more) == FirstMarked(scripts)
  {
    assert scripts != [];
    AppendHeadTail(scripts, more);
    if !Contains(scripts[0], InitialDataMarker) {
      FirstMarkedAppend(scripts[1..], more);
    }
  }

  /** Scripts after the first marked one are never read. */
  lemma LaterScriptsIgnored(scripts: seq<string>, more: seq<string>)
    requires FirstMarked(scripts).Some?
    ensures SearchFound(scripts + more) == SearchFound(scripts)
  {
    FirstMarkedAppend(scripts, more);
    var k := FirstMarked(scripts).value;
    assert (scripts + more)[k] == scripts[k];
  }

  /**
   * Once a video id is found, text before it cannot supply the title or duration:
   * two scripts that differ only before the first `"videoId":` give the same result.
   */
  lemma TextBeforeVideoIdIgnored(a1: string, a2: string, rest: string)
    requires FirstAt(a1, VideoIdKey, rest) && FirstAt(a2, VideoIdKey, rest)
    requires ParseQuotes(rest).Some?
    ensures ScriptFound(a1 + (VideoIdKey + rest)) == ScriptFound(a2 + (VideoIdKey + rest))
  {
    ParseVideoIdAfterKey(a1, rest);
    ParseVideoIdAfterKey(a2, rest);
  }

  /** The results page URL: the query with its spaces turned into '+'. */
  function SearchUrl(query: string): (url: string)
    ensures |url| == |SearchPage| + |query| && url[..|SearchPage|] == SearchPage
    ensures forall i :: 0 <= i < |query| ==>
              url[|SearchPage| + i] == (if query[i] == ' ' then '+' else query[i])
    ensures ' ' !in url[|SearchPage|..]
  {
    var q := Replace(query, " ", "+");
    ReplaceSpaces(query);
    assert (SearchPage + q)[|SearchPage|..] == q;
    assert forall i :: 0 <= i < |query| ==> (SearchPage + q)[|SearchPage| + i] == q[i];
    SearchPage + q
  }

  /** Replacing " " by "+" keeps the length and changes exactly the spaces. */
  lemma {:induction false} ReplaceSpaces(s: string)
    ensures |Replace(s, " ", "+")| == |s|
    ensures forall i :: 0 <= i < |s| ==> Replace(s, " ", "+")[i] == (if s[i] == ' ' then '+' else s[i])
    ensures ' ' !in Replace(s, " ", "+")
    decreases |s|
  {
    if s != [] {
      ReplaceSpaces(s[1..]);
      var t := Replace(s[1..], " ", "+");
      assert s[0..1] == [s[0]];
      var h := if s[0] == ' ' then '+' else s[0];
      assert Replace(s, " ", "+") == [h] + t;
      forall i | 0 <= i < |s|
        ensures ([h] + t)[i] == (if s[i] == ' ' then '+' else s[i])
      {
        if i > 0 {
          assert s[i] == s[1..][i - 1];
        }
      }
    }
  }
}
