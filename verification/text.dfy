/**
 * Text helpers the modelled code borrows from Rust's standard library and from nom:
 * decimal rendering and parsing of unsigned integers, `str::split` / `join`,
 * `str::replace`, substring search and nom's complete `take_until`.
 * Strings are sequences of characters; the UTF-8 byte offsets of the Rust code only
 * ever fall on the one-byte ASCII characters these helpers look for.
 */
module Text {
  import opened Wrappers

  predicate IsDigit(c: char) { '0' <= c <= '9' }

  predicate AllDigits(s: string) { forall i :: 0 <= i < |s| ==> IsDigit(s[i]) }

  function DigitValue(c: char): nat
    requires IsDigit(c)
  {
    c as int - '0' as int
  }

  function DigitChar(d: nat): (c: char)
    requires d < 10
    ensures IsDigit(c) && DigitValue(c) == d
  {
    (d + '0' as int) as char
  }

  /** Rust's `Display` for an unsigned integer: decimal digits, no leading zero. */
  function NatToString(n: nat): (s: string)
    ensures 1 <= |s| && AllDigits(s)
    ensures s[0] == '0' ==> n == 0 && |s| == 1
    decreases n
  {
    if n < 10 then [DigitChar(n)] else NatToString(n / 10) + [DigitChar(n % 10)]
  }

  /** The value of a string of decimal digits, most significant digit first. */
  function DigitsValue(s: string): nat
    requires AllDigits(s)
  {
    if s == [] then 0 else DigitsValue(s[..|s| - 1]) * 10 + DigitValue(s[|s| - 1])
  }

  /** Reading back the decimal rendering of a number gives the number. */
  lemma {:induction false} NatToStringRoundTrip(n: nat)
    ensures DigitsValue(NatToString(n)) == n
    decreases n
  {
    if n >= 10 {
      NatToStringRoundTrip(n / 10);
      var s := NatToString(n);
      assert s[..|s| - 1] == NatToString(n / 10);
    }
  }

  /** Distinct numbers render differently. */
  lemma NatToStringInjective(a: nat, b: nat)
    requires NatToString(a) == NatToString(b)
    ensures a == b
  {
    NatToStringRoundTrip(a);
    NatToStringRoundTrip(b);
  }

  /** A leading zero does not change the value of a digit string. */
  lemma {:induction false} LeadingZero(s: string)
    requires AllDigits(s)
    ensures AllDigits("0" + s) && DigitsValue("0" + s) == DigitsValue(s)
    decreases |s|
  {
    if s != [] {
      var t := "0" + s;
      assert t[..|t| - 1] == "0" + s[..|s| - 1];
      LeadingZero(s[..|s| - 1]);
    }
  }

  const U64Max: nat := 0xFFFF_FFFF_FFFF_FFFF

  /**
   * `str::parse::<u64>()`: an optional leading '+', then one or more ASCII digits
   * whose value fits in 64 bits; anything else is an error (None).
   */
  function ParseU64(s: string): (r: Option<nat>)
    ensures r.Some? ==> r.value <= U64Max
    ensures s == [] ==> r.None?
  {
    var digits := if |s| > 0 && s[0] == '+' then s[1..] else s;
    if digits != [] && AllDigits(digits) && DigitsValue(digits) <= U64Max
    then Some(DigitsValue(digits))
    else None
  }

  /** Every 64-bit value parses back from its decimal rendering. */
  lemma ParseU64OfNatToString(n: nat)
    requires n <= U64Max
    ensures ParseU64(NatToString(n)) == Some(n)
  {
    NatToStringRoundTrip(n);
  }

  /** `s.split(sep)` for a one-character separator: the pieces between separators. */
  function Split(s: string, sep: char): (parts: seq<string>)
    ensures |parts| >= 1
    ensures forall i :: 0 <= i < |parts| ==> sep !in parts[i]
    decreases |s|
  {
    if s == [] then [""]
    else
      var rest := Split(s[1..], sep);
      if s[0] == sep then [""] + rest else [[s[0]] + rest[0]] + rest[1..]
  }

  /** `parts.join(sep)`. */
  function Join(parts: seq<string>, sep: string): string
  {
    if parts == [] then ""
    else if |parts| == 1 then parts[0]
    else parts[0] + sep + Join(parts[1..], sep)
  }

  /** Joining the pieces of a split with the separator gives back the input. */
  lemma {:induction false} JoinSplit(s: string, sep: char)
    ensures Join(Split(s, sep), [sep]) == s
    decreases |s|
  {
    if s != [] {
      JoinSplit(s[1..], sep);
      var rest := Split(s[1..], sep);
      if s[0] == sep {
        assert Split(s, sep) == [""] + rest;
        assert ([""] + rest)[1..] == rest;
      } else {
        var parts := [[s[0]] + rest[0]] + rest[1..];
        assert Split(s, sep) == parts;
        if |rest| > 1 {
          assert parts[1..] == rest[1..];
        }
      }
    }
  }

  lemma {:induction false} SplitWithoutSeparator(a: string, sep: char)
    requires sep !in a
    ensures Split(a, sep) == [a]
    decreases |a|
  {
    if a != [] {
      SplitWithoutSeparator(a[1..], sep);
      assert [a[0]] + a[1..] == a;
    }
  }

  lemma {:induction false} SplitAtSeparator(a: string, b: string, sep: char)
    requires sep !in a
    ensures Split(a + [sep] + b, sep) == [a] + Split(b, sep)
    decreases |a|
  {
    if a == [] {
      assert a + [sep] + b == [sep] + b;
      assert ([sep] + b)[1..] == b;
    } else {
      SplitAtSeparator(a[1..], b, sep);
      assert (a + [sep] + b)[1..] == a[1..] + [sep] + b;
      assert (a + [sep] + b)[0] == a[0] != sep;
      assert [a[0]] + a[1..] == a;
    }
  }

  /** Splitting a join of separator-free pieces gives back the pieces. */
  lemma {:induction false} SplitJoin(parts: seq<string>, sep: char)
    requires |parts| >= 1
    requires forall i :: 0 <= i < |parts| ==> sep !in parts[i]
    ensures Split(Join(parts, [sep]), sep) == parts
    decreases |parts|
  {
    if |parts| == 1 {
      SplitWithoutSeparator(parts[0], sep);
    } else {
      SplitJoin(parts[1..], sep);
      SplitAtSeparator(parts[0], Join(parts[1..], [sep]), sep);
    }
  }

  /** `pat` occurs in `s` starting at index `i`. */
  predicate OccursAt(s: string, pat: string, i: nat)
  {
    i + |pat| <= |s| && s[i..i + |pat|] == pat
  }

  /** The first index at or after `from` where `pat` occurs in `s`. */
  function FindFrom(s: string, pat: string, from: nat): (r: Option<nat>)
    requires from <= |s|
    ensures r.Some? ==> from <= r.value <= |s| && OccursAt(s, pat, r.value)
    ensures r.Some? ==> forall j: nat :: from <= j < r.value ==> !OccursAt(s, pat, j)
    ensures r.None? ==> forall j: nat :: from <= j ==> !OccursAt(s, pat, j)
    decreases |s| - from
  {
    if OccursAt(s, pat, from) then Some(from)
    else if from == |s| then None
    else FindFrom(s, pat, from + 1)
  }

  /** `s.find(pat)`: the index of the first occurrence of `pat`. */
  function Find(s: string, pat: string): (r: Option<nat>)
    ensures r.Some? ==> OccursAt(s, pat, r.value)
    ensures r.Some? ==> forall j: nat :: j < r.value ==> !OccursAt(s, pat, j)
    ensures r.None? ==> forall j: nat :: !OccursAt(s, pat, j)
  {
    FindFrom(s, pat, 0)
  }

  /** `s.contains(pat)`. */
  predicate Contains(s: string, pat: string)
  {
    Find(s, pat).Some?
  }

  /** Concatenation regroups freely. */
  lemma ConcatAssoc(x: string, y: string, z: string)
    ensures x + (y + z) == (x + y) + z
  {
  }

  /** Dropping the first character of `[c] + x` leaves `x`. */
  lemma DropHead(c: char, x: string)
    ensures ([c] + x)[1..] == x
  {
  }

  /** The head and the tail of a concatenation with a non-empty front. */
  lemma AppendHeadTail<T>(s: seq<T>, t: seq<T>)
    requires s != []
    ensures (s + t)[0] == s[0] && (s + t)[1..] == s[1..] + t
  {
  }

  /** A pattern occurs at the start of anything it begins. */
  lemma OccursAtStart(pat: string, rest: string)
    ensures OccursAt(pat + rest, pat, 0)
  {
    assert (pat + rest)[..|pat|] == pat;
  }

  /** A successful nom parse: the rest of the input and what was recognised. */
  datatype Parsed<T> = Parsed(remainder: string, matched: T)

  /**
   * nom's complete `take_until(pat)`: recognises everything before the first
   * occurrence of `pat` and leaves the remainder starting with `pat`; fails when
   * `pat` does not occur (`TakeUntilSpec`).
   */
  function TakeUntil(pat: string, input: string): (r: Option<Parsed<string>>)
    ensures r.Some? ==> input == r.value.matched + r.value.remainder
    ensures r.Some? ==> OccursAt(r.value.remainder, pat, 0)
    decreases |input|
  {
    if OccursAt(input, pat, 0) then Some(Parsed(input, []))
    else if input == [] then None
    else match TakeUntil(pat, input[1..])
      case None => None
      case Some(p) =>
        ConsSplit(input, p.matched, p.remainder);
        Some(Parsed(p.remainder, [input[0]] + p.matched))
  }

  /** A split of a tail extends to a split of the whole sequence. */
  lemma ConsSplit(s: string, m: string, rest: string)
    requires s != [] && s[1..] == m + rest
    ensures s == ([s[0]] + m) + rest
  {
    assert s == [s[0]] + s[1..];
  }

  /** An occurrence one place further in `input` is an occurrence in its tail. */
  lemma OccursInTail(input: string, pat: string, j: nat)
    requires input != []
    ensures OccursAt(input, pat, j + 1) <==> OccursAt(input[1..], pat, j)
  {
    if j + 1 + |pat| <= |input| {
      assert input[j + 1..j + 1 + |pat|] == input[1..][j..j + |pat|];
    }
  }

  /** An occurrence in `s` is an occurrence in `prefix + s`, shifted by the prefix. */
  lemma OccursShift(prefix: string, s: string, pat: string, k: nat)
    requires OccursAt(s, pat, k)
    ensures OccursAt(prefix + s, pat, |prefix| + k)
  {
    assert (prefix + s)[|prefix| + k..|prefix| + k + |pat|] == s[k..k + |pat|];
  }

  /** Where `take_until` stops, `pat` occurs. */
  lemma TakeUntilOccurrence(pat: string, input: string)
    requires TakeUntil(pat, input).Some?
    ensures OccursAt(input, pat, |TakeUntil(pat, input).value.matched|)
  {
    var r := TakeUntil(pat, input).value;
    OccursAfter(r.matched, r.remainder, pat);
  }

  /** An occurrence at the start of `rest` is an occurrence after any prefix. */
  lemma OccursAfter(prefix: string, rest: string, pat: string)
    requires OccursAt(rest, pat, 0)
    ensures OccursAt(prefix + rest, pat, |prefix|)
  {
    assert (prefix + rest)[|prefix|..|prefix| + |pat|] == rest[..|pat|];
  }

  /** `take_until` stops at the first occurrence: none lies inside what it recognised. */
  lemma {:induction false} TakeUntilStopsFirst(pat: string, input: string, j: nat)
    requires TakeUntil(pat, input).Some?
    requires j < |TakeUntil(pat, input).value.matched|
    ensures !OccursAt(input, pat, j)
    decreases |input|
  {
    if !OccursAt(input, pat, 0) && j > 0 {
      TakeUntilStopsFirst(pat, input[1..], j - 1);
      OccursInTail(input, pat, j - 1);
    }
  }

  /** `take_until` fails only when `pat` occurs nowhere. */
  lemma {:induction false} TakeUntilFailsAbsent(pat: string, input: string, i: nat)
    requires TakeUntil(pat, input).None?
    ensures !OccursAt(input, pat, i)
    decreases |input|
  {
    if input == [] {
      assert pat != [];
    } else if i > 0 {
      TakeUntilFailsAbsent(pat, input[1..], i - 1);
      OccursInTail(input, pat, i - 1);
    }
  }

  /**
   * `take_until` succeeds exactly when `pat` occurs, and then stops at its
   * first occurrence.
   */
  lemma TakeUntilSpec(pat: string, input: string)
    ensures TakeUntil(pat, input).Some? <==> exists i: nat :: OccursAt(input, pat, i)
    ensures TakeUntil(pat, input).Some? ==>
              forall j: nat :: j < |TakeUntil(pat, input).value.matched| ==> !OccursAt(input, pat, j)
  {
    var r := TakeUntil(pat, input);
    if r.Some? {
      var m := r.value.matched;
      TakeUntilOccurrence(pat, input);
      forall j: nat | j < |m| ensures !OccursAt(input, pat, j) {
        TakeUntilStopsFirst(pat, input, j);
      }
    } else {
      forall i: nat ensures !OccursAt(input, pat, i) {
        TakeUntilFailsAbsent(pat, input, i);
      }
    }
  }

  /** `take_until` stops where `rest` starts when `pat` occurs there and nowhere before. */
  lemma {:induction false} TakeUntilAt(pat: string, a: string, rest: string)
    requires OccursAt(rest, pat, 0)
    requires forall j: nat :: j < |a| ==> !OccursAt(a + rest, pat, j)
    ensures TakeUntil(pat, a + rest) == Some(Parsed(rest, a))
    decreases |a|
  {
    var input := a + rest;
    if a == [] {
      assert input == rest;
    } else {
      assert !OccursAt(input, pat, 0);
      assert input[1..] == a[1..] + rest;
      forall j: nat | j < |a[1..]| ensures !OccursAt(a[1..] + rest, pat, j) {
        OccursInTail(input, pat, j);
        assert !OccursAt(input, pat, j + 1);
      }
      TakeUntilAt(pat, a[1..], rest);
      assert [input[0]] + a[1..] == a;
    }
  }

  /** A character that occurs is found by `take_until`. */
  lemma TakeUntilFindsChar(c: char, input: string)
    requires c in input
    ensures TakeUntil([c], input).Some?
  {
    var i :| 0 <= i < |input| && input[i] == c;
    assert input[i..i + 1] == [c];
    if TakeUntil([c], input).None? {
      TakeUntilFailsAbsent([c], input, i);
    }
  }

  /** What `take_until` recognises before a character does not contain it. */
  lemma TakeUntilSkipsChar(c: char, input: string)
    requires TakeUntil([c], input).Some?
    ensures c !in TakeUntil([c], input).value.matched
  {
    var m := TakeUntil([c], input).value.matched;
    forall j | 0 <= j < |m| ensures m[j] != c {
      TakeUntilStopsFirst([c], input, j);
      assert input[j..j + 1] == [m[j]];
    }
  }

  /** For a one-character pattern: the first occurrence is the first equal character. */
  lemma TakeUntilChar(c: char, input: string)
    ensures TakeUntil([c], input).Some? <==> c in input
    ensures TakeUntil([c], input).Some? ==>
              c !in TakeUntil([c], input).value.matched &&
              TakeUntil([c], input).value.remainder[0] == c
  {
    var r := TakeUntil([c], input);
    if c in input {
      TakeUntilFindsChar(c, input);
    }
    if r.Some? {
      TakeUntilSkipsChar(c, input);
      var m := r.value.matched;
      assert r.value.remainder[0..1] == [c];
      assert input[|m|] == r.value.remainder[0];
    }
  }

  /**
   * `s.replace(pat, rep)`: every non-overlapping occurrence of `pat`, found
   * scanning left to right, replaced by `rep`.
   */
  function Replace(s: string, pat: string, rep: string): string
    requires pat != []
    decreases |s|
  {
    if OccursAt(s, pat, 0) then rep + Replace(s[|pat|..], pat, rep)
    else if s == [] then []
    else [s[0]] + Replace(s[1..], pat, rep)
  }
}
