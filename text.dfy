/** The string primitives the configuration code leans on: Rust's `char::is_whitespace`,
    `str::trim`, `str::lines`, `str::find`, `starts_with`/`ends_with` and `join`, over `seq<char>`. */
module Text {
  import opened Wrappers

  /** Rust's `char::is_whitespace`: the characters with the Unicode White_Space property. */
  predicate IsWhitespace(c: char) {
    || ('\t' <= c <= '\r') || c == ' ' || c == '\U{0085}' || c == '\U{00A0}' || c == '\U{1680}'
    || ('\U{2000}' <= c <= '\U{200A}') || c == '\U{2028}' || c == '\U{2029}' || c == '\U{202F}'
    || c == '\U{205F}' || c == '\U{3000}'
  }

  predicate AllWhitespace(s: string) {
    forall i :: 0 <= i < |s| ==> IsWhitespace(s[i])
  }

  /** Neither end of `s` is whitespace. */
  predicate Trimmed(s: string) {
    s == [] || (!IsWhitespace(s[0]) && !IsWhitespace(s[|s| - 1]))
  }

  /** The index of the first character at or after `i` that is not whitespace, or `|s|`. */
  function SkipLeading(s: string, i: nat): (k: nat)
    requires i <= |s|
    ensures i <= k <= |s|
    ensures k < |s| ==> !IsWhitespace(s[k])
    decreases |s| - i
  {
    if i < |s| && IsWhitespace(s[i]) then SkipLeading(s, i + 1) else i
  }

  /** The end of `s[lo..j]` once its trailing whitespace is dropped. */
  function SkipTrailing(s: string, lo: nat, j: nat): (k: nat)
    requires lo <= j <= |s|
    ensures lo <= k <= j
    ensures k > lo ==> !IsWhitespace(s[k - 1])
    decreases j
  {
    if j > lo && IsWhitespace(s[j - 1]) then SkipTrailing(s, lo, j - 1) else j
  }

  /** The number of whitespace characters `s` starts with. */
  function LeadingWhitespace(s: string): nat {
    SkipLeading(s, 0)
  }

  /** Rust's `str::trim`: `s` without its leading and trailing whitespace. */
  function Trim(s: string): (r: string)
    ensures Trimmed(r)
    ensures Trimmed(s) ==> r == s
  {
    var a := SkipLeading(s, 0);
    s[a..SkipTrailing(s, a, |s|)]
  }

  lemma {:induction false} SkipLeadingSpec(s: string, i: nat)
    requires i <= |s|
    ensures forall m :: i <= m < SkipLeading(s, i) ==> IsWhitespace(s[m])
    decreases |s| - i
  {
    if i < |s| && IsWhitespace(s[i]) {
      SkipLeadingSpec(s, i + 1);
    }
  }

  lemma {:induction false} SkipTrailingSpec(s: string, lo: nat, j: nat)
    requires lo <= j <= |s|
    ensures forall m :: SkipTrailing(s, lo, j) <= m < j ==> IsWhitespace(s[m])
    decreases j
  {
    if j > lo && IsWhitespace(s[j - 1]) {
      SkipTrailingSpec(s, lo, j - 1);
    }
  }

  /** What `Trim` keeps: the text that starts after the leading whitespace and is followed only
      by whitespace. */
  lemma TrimSpec(s: string)
    ensures LeadingWhitespace(s) + |Trim(s)| <= |s|
    ensures AllWhitespace(s[..LeadingWhitespace(s)])
    ensures s[LeadingWhitespace(s)..LeadingWhitespace(s) + |Trim(s)|] == Trim(s)
    ensures AllWhitespace(s[LeadingWhitespace(s) + |Trim(s)|..])
  {
    var a := SkipLeading(s, 0);
    var b := SkipTrailing(s, a, |s|);
    assert Trim(s) == s[a..b];
    SkipLeadingSpec(s, 0);
    SkipTrailingSpec(s, a, |s|);
    assert forall m :: 0 <= m < |s[b..]| ==> s[b..][m] == s[b + m];
  }

  /** Whitespace from `i` to `k`, then a non-whitespace character or the end: `SkipLeading` stops
      at `k`. */
  lemma {:induction false} SkipLeadingTo(s: string, i: nat, k: nat)
    requires i <= k <= |s|
    requires forall m :: i <= m < k ==> IsWhitespace(s[m])
    requires k < |s| ==> !IsWhitespace(s[k])
    ensures SkipLeading(s, i) == k
    decreases k - i
  {
    if i < k {
      SkipLeadingTo(s, i + 1, k);
    }
  }

  lemma {:induction false} SkipTrailingTo(s: string, lo: nat, k: nat, j: nat)
    requires lo <= k <= j <= |s|
    requires forall m :: k <= m < j ==> IsWhitespace(s[m])
    requires k > lo ==> !IsWhitespace(s[k - 1])
    ensures SkipTrailing(s, lo, j) == k
    decreases j - k
  {
    if k < j {
      SkipTrailingTo(s, lo, k, j - 1);
    }
  }

  /** The two halves of a concatenation. */
  lemma Split(a: string, b: string)
    ensures (a + b)[..|a|] == a && (a + b)[|a|..] == b
  {
  }

  predicate StartsWith(s: string, c: char) {
    |s| > 0 && s[0] == c
  }

  predicate EndsWith(s: string, c: char) {
    |s| > 0 && s[|s| - 1] == c
  }

  /** The first index at or after `i` where `s` holds `c`. */
  function IndexFrom(s: string, c: char, i: nat): (r: Option<nat>)
    requires i <= |s|
    ensures r.None? ==> forall k :: i <= k < |s| ==> s[k] != c
    ensures r.Some? ==> i <= r.value < |s| && s[r.value] == c
    ensures r.Some? ==> forall k :: i <= k < r.value ==> s[k] != c
    decreases |s| - i
  {
    if i == |s| then None
    else if s[i] == c then Some(i)
    else IndexFrom(s, c, i + 1)
  }

  /** Rust's `str::find` for one character: the first index of `c` in `s`. */
  function IndexOf(s: string, c: char): (r: Option<nat>)
    ensures r.None? ==> c !in s
    ensures r.Some? ==> r.value < |s| && s[r.value] == c
    ensures r.Some? ==> forall k :: 0 <= k < r.value ==> s[k] != c
  {
    IndexFrom(s, c, 0)
  }

  /** `c` at `i` and nowhere before it: `IndexOf` finds `i`. */
  lemma IndexOfFirst(s: string, c: char, i: nat)
    requires i < |s| && s[i] == c
    requires forall k :: 0 <= k < i ==> s[k] != c
    ensures IndexOf(s, c) == Some(i)
  {
  }

  /** The last index of `c` in `s`. */
  function LastIndexOf(s: string, c: char): (r: Option<nat>)
    ensures r.None? ==> c !in s
    ensures r.Some? ==> r.value < |s| && s[r.value] == c && c !in s[r.value + 1..]
  {
    if s == [] then None
    else if s[|s| - 1] == c then Some(|s| - 1)
    else match LastIndexOf(s[..|s| - 1], c)
      case None => None
      case Some(i) =>
        assert s[i + 1..] == s[..|s| - 1][i + 1..] + [s[|s| - 1]];
        Some(i)
  }

  /** Rust's `to_ascii_lowercase` on one character. */
  function AsciiLower(c: char): char {
    if 'A' <= c <= 'Z' then (c as int + 32) as char else c
  }

  /** Rust's `eq_ignore_ascii_case`. */
  predicate EqualsIgnoreAsciiCase(a: string, b: string) {
    |a| == |b| && forall i :: 0 <= i < |a| ==> AsciiLower(a[i]) == AsciiLower(b[i])
  }

  /** The number of occurrences of `c` in `s`. */
  function Count(s: string, c: char): nat {
    if s == [] then 0 else Count(s[..|s| - 1], c) + (if s[|s| - 1] == c then 1 else 0)
  }

  lemma CountStep(s: string, i: nat, c: char)
    requires i < |s|
    ensures Count(s[..i + 1], c) == Count(s[..i], c) + (if s[i] == c then 1 else 0)
  {
    assert s[..i + 1][..i] == s[..i];
  }

  lemma {:induction false} CountAbsent(s: string, c: char)
    requires c !in s
    ensures Count(s, c) == 0
  {
    if s != [] {
      assert c !in s[..|s| - 1];
      CountAbsent(s[..|s| - 1], c);
    }
  }

  lemma {:induction false} CountConcat(a: string, b: string, c: char)
    ensures Count(a + b, c) == Count(a, c) + Count(b, c)
  {
    if b == [] {
      assert a + b == a;
    } else {
      assert (a + b)[..|a + b| - 1] == a + b[..|b| - 1];
      CountConcat(a, b[..|b| - 1], c);
    }
  }

  function DropCarriageReturn(line: string): string {
    if EndsWith(line, '\r') then line[..|line| - 1] else line
  }

  /** Rust's `str::lines`: the text between line feeds, each with one carriage return dropped
      before its line feed; a last line without a line feed is kept as it is, and a final line
      feed does not start an empty line. */
  function Lines(s: string): (ls: seq<string>)
    ensures forall k :: 0 <= k < |ls| ==> '\n' !in ls[k]
    ensures s != [] ==> ls != []
    decreases |s|
  {
    if s == [] then []
    else match IndexOf(s, '\n')
      case None => [s]
      case Some(i) => [DropCarriageReturn(s[..i])] + Lines(s[i + 1..])
  }

  /** Rust's `join`: the parts with `sep` between each two of them. */
  function Join(parts: seq<string>, sep: string): string {
    if |parts| == 0 then ""
    else if |parts| == 1 then parts[0]
    else parts[0] + sep + Join(parts[1..], sep)
  }

  /** Splitting text without carriage returns into lines and joining them with line feeds gives
      back the text, less its final line feed. */
  lemma {:induction false} LinesRoundTrip(s: string)
    requires '\r' !in s
    ensures Join(Lines(s), "\n") == if EndsWith(s, '\n') then s[..|s| - 1] else s
  {
    if s != [] {
      match IndexOf(s, '\n')
      case None =>
      case Some(i) =>
        var line, rest := s[..i], s[i + 1..];
        FirstLine(s, i);
        assert Lines(s) == [line] + Lines(rest) && '\r' !in rest;
        if rest == [] {
          assert Join(Lines(s), "\n") == line;
          assert EndsWith(s, '\n') && s[..|s| - 1] == line;
        } else {
          LinesRoundTrip(rest);
          JoinCons(line, Lines(rest));
          DropFinalFeed(s, line, rest);
        }
    }
  }

  /** Dropping a final line feed from `line + "\n" + rest` drops it from `rest`. */
  lemma DropFinalFeed(s: string, line: string, rest: string)
    requires s == line + "\n" + rest && rest != []
    ensures (if EndsWith(s, '\n') then s[..|s| - 1] else s)
      == line + "\n" + (if EndsWith(rest, '\n') then rest[..|rest| - 1] else rest)
  {
    assert s[|s| - 1] == rest[|rest| - 1];
    if EndsWith(rest, '\n') {
      assert s[..|s| - 1] == line + "\n" + rest[..|rest| - 1];
    }
  }

  /** The first line of a text runs to its first line feed, less a carriage return just before
      it, and the other lines are those of the text after that line feed; without carriage
      returns the first line is exactly the text before the line feed. */
  lemma FirstLine(s: string, i: nat)
    requires IndexOf(s, '\n') == Some(i)
    ensures s == s[..i] + "\n" + s[i + 1..]
    ensures Lines(s) == [DropCarriageReturn(s[..i])] + Lines(s[i + 1..])
    ensures s[i + 1..] == [] ==> Lines(s) == [DropCarriageReturn(s[..i])]
    ensures '\r' !in s ==> Lines(s) == [s[..i]] + Lines(s[i + 1..]) && '\r' !in s[i + 1..]
  {
    if '\r' !in s {
      assert DropCarriageReturn(s[..i]) == s[..i];
      var rest := s[i + 1..];
      assert '\r' !in rest by {
        forall k | 0 <= k < |rest| ensures rest[k] != '\r' { assert rest[k] == s[i + 1 + k]; }
      }
    }
  }

  lemma JoinCons(x: string, xs: seq<string>)
    requires xs != []
    ensures Join([x] + xs, "\n") == x + "\n" + Join(xs, "\n")
  {
    assert ([x] + xs)[1..] == xs;
  }

  /** Trimming removes exactly the whitespace around a text that neither starts nor ends with
      whitespace. */
  lemma TrimPadded(a: string, t: string, b: string)
    requires AllWhitespace(a) && AllWhitespace(b)
    requires t != [] && Trimmed(t)
    ensures Trim(a + t + b) == t
  {
    var s := a + t + b;
    var i, j := |a|, |a| + |t|;
    assert forall m :: 0 <= m < i ==> s[m] == a[m];
    assert forall m :: j <= m < |s| ==> s[m] == b[m - j];
    assert s[i] == t[0] && s[j - 1] == t[|t| - 1];
    SkipLeadingTo(s, 0, i);
    SkipTrailingTo(s, i, j, |s|);
    assert s[i..j] == t;
  }

  /** Whitespace trims to nothing. */
  lemma TrimAllWhitespace(w: string)
    requires AllWhitespace(w)
    ensures Trim(w) == []
  {
    SkipLeadingTo(w, 0, |w|);
  }
}
