/**
 * The crate's error values (src/error.rs). `missing_value!` and `url_error!` record
 * the file and line of their invocation; a model of an invocation passes both as
 * constants. `Error` stands for the boxed `dyn Error` that functions return.
 */
module Errors {
  import opened Wrappers
  import opened Text

  datatype LibError =
    | MissingValue(value: string, line: nat, file: string)
    | UrlError(description: string, line: nat, file: string)

  datatype VoiceError = DifferentChannel(line: nat, file: string)

  /** What the model distinguishes of the boxed error values. */
  datatype Error =
    | Lib(lib: LibError)
    | Voice(voice: VoiceError)
      // `url::ParseError` from `Url::parse`: the query is not an absolute URL
    | UrlParse
      // the ISO 8601 duration text of a video did not parse
    | DurationParse(text: string)
      // not an `Err` in the source: the thread panics (an `unwrap` on `None`)
    | Panic(reason: string)

  /** `missing_value!(x)` invoked at `file`:`line`. */
  function MissingValueAt(x: string, file: string, line: nat): (e: LibError)
    ensures e.MissingValue? && Description(e) == x
    ensures e.file == file && e.line == line
  {
    MissingValue(x, line, file)
  }

  /** `url_error!(x)` invoked at `file`:`line`. */
  function UrlErrorAt(x: string, file: string, line: nat): (e: LibError)
    ensures e.UrlError? && Description(e) == x
    ensures e.file == file && e.line == line
  {
    UrlError(x, line, file)
  }

  /** `different_channel!()` invoked at `file`:`line`. */
  function DifferentChannelAt(file: string, line: nat): (e: VoiceError)
    ensures e.file == file && e.line == line
  {
    DifferentChannel(line, file)
  }

  /** `description()`: the text the error was raised with, without its location. */
  function Description(e: LibError): (d: string)
    ensures e.MissingValue? ==> d == e.value
    ensures e.UrlError? ==> d == e.description
  {
    match e
    case MissingValue(value, _, _) => value
    case UrlError(description, _, _) => description
  }

  /**
   * The name of the first field in `fields` whose flag says it is absent: the
   * value a chain of `missing_value!` checks, made in list order, reports.
   */
  function FirstAbsent(fields: seq<(string, bool)>): (r: Option<string>)
    ensures r.Some? <==> exists i :: 0 <= i < |fields| && !fields[i].1
    ensures r.Some? ==> exists i :: 0 <= i < |fields| && !fields[i].1 && r.value == fields[i].0 &&
                                    forall j :: 0 <= j < i ==> fields[j].1
  {
    if fields == [] then None
    else if !fields[0].1 then Some(fields[0].0)
    else
      var r := FirstAbsent(fields[1..]);
      assert r.Some? ==> exists i :: 0 <= i < |fields| && !fields[i].1 && r.value == fields[i].0 &&
                                     forall j :: 0 <= j < i ==> fields[j].1 by {
        if r.Some? {
          var t := fields[1..];
          var i :| 0 <= i < |t| && !t[i].1 && r.value == t[i].0 && forall j :: 0 <= j < i ==> t[j].1;
          assert forall j :: 0 <= j < i + 1 ==> fields[j].1 by {
            forall j | 0 <= j < i + 1 ensures fields[j].1 {
              if j > 0 { assert fields[j] == t[j - 1]; }
            }
          }
          assert !fields[i + 1].1 && r.value == fields[i + 1].0;
        }
      }
      assert (exists i :: 0 <= i < |fields| && !fields[i].1) ==> r.Some? by {
        if i :| 0 <= i < |fields| && !fields[i].1 {
          assert !fields[1..][i - 1].1;
        }
      }
      r
  }

  /** The part of the displayed text after "file:line ": the kind, then the description in backquotes. */
  function Message(e: LibError): (m: string)
    ensures m == (if e.MissingValue? then "Missing Value: `" else "Url Error: `") + Description(e) + "`"
  {
    match e
    case MissingValue(value, _, _) => "Missing Value: `" + value + "`"
    case UrlError(description, _, _) => "Url Error: `" + description + "`"
  }

  /** `Display`: "file:line Missing Value: `value`" or "file:line Url Error: `description`". */
  function Display(e: LibError): (s: string)
    ensures |s| > |Description(e)| && s[|s| - |Description(e)| - 1..] == Description(e) + "`"
  {
    var m := Message(e);
    assert m[|m| - |Description(e)| - 1..] == Description(e) + "`";
    e.file + ":" + NatToString(e.line) + " " + Message(e)
  }

  /** `description()` of a voice error. */
  function VoiceDescription(e: VoiceError): (d: string)
    ensures d == "Different channel"
  {
    match e
    case DifferentChannel(_, _) => "Different channel"
  }

  /** `Display` of a voice error: "file:line Different channel". */
  function VoiceDisplay(e: VoiceError): (s: string)
    ensures s == e.file + ":" + NatToString(e.line) + " " + VoiceDescription(e)
  {
    match e
    case DifferentChannel(line, file) => file + ":" + NatToString(line) + " Different channel"
  }

  /** A string split at the first occurrence of a character is split the same way every time. */
  lemma SplitAtFirst(a: string, x: string, b: string, y: string, c: char)
    requires c !in a && c !in b
    requires a + [c] + x == b + [c] + y
    ensures a == b && x == y
  {
    var s := a + [c] + x;
    assert forall i :: 0 <= i < |a| ==> s[i] == a[i];
    assert forall i :: 0 <= i < |b| ==> s[i] == b[i];
    assert s[|a|] == c && s[|b|] == c;
    assert |a| == |b|;
    assert a == s[..|a|] && b == s[..|b|];
    assert x == s[|a| + 1..] && y == s[|b| + 1..];
  }

  /** The message after the location tells the two kinds apart and keeps the description. */
  lemma MessageInjective(e1: LibError, e2: LibError)
    requires Message(e1) == Message(e2)
    ensures e1.MissingValue? == e2.MissingValue? && Description(e1) == Description(e2)
  {
    var m := Message(e1);
    assert m[0] == (if e1.MissingValue? then 'M' else 'U');
    assert m[0] == (if e2.MissingValue? then 'M' else 'U');
    var k := if e1.MissingValue? then 16 else 12;
    assert Description(e1) == m[k..|m| - 1];
    assert Description(e2) == m[k..|m| - 1];
  }

  /**
   * The displayed text loses nothing: two errors raised in files whose paths hold
   * no ':' display identically only if they are the same error.
   */
  lemma DisplayInjective(e1: LibError, e2: LibError)
    requires ':' !in e1.file && ':' !in e2.file
    requires Display(e1) == Display(e2)
    ensures e1 == e2
  {
    var n1, n2 := NatToString(e1.line), NatToString(e2.line);
    var m1, m2 := Message(e1), Message(e2);
    DisplayParts(e1);
    DisplayParts(e2);
    SplitAtFirst(e1.file, n1 + [' '] + m1, e2.file, n2 + [' '] + m2, ':');
    assert ' ' !in n1 && ' ' !in n2;
    SplitAtFirst(n1, m1, n2, m2, ' ');
    NatToStringInjective(e1.line, e2.line);
    MessageInjective(e1, e2);
  }

  /** The displayed text, cut at the ':' after the file and the ' ' after the line. */
  lemma DisplayParts(e: LibError)
    ensures Display(e) == e.file + [':'] + (NatToString(e.line) + [' '] + Message(e))
  {
  }
}
