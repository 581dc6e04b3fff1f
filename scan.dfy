/** The character scanners of the configuration reader: `unescape`, `strip_comments`,
    `contains_closing_bracket_outside_quotes` and `parse_array_items` (src/lib.rs).
    Each is a method with the source's loop, proved equal to a specification function;
    the properties the source promises are lemmas about those functions. */
module Scan {
  import opened Wrappers
  import opened Text

  // ----- unescape -----

  /** What a backslash followed by `c` stands for: the five named escapes, and otherwise the
      backslash and `c` themselves. */
  function EscapeValue(c: char): string {
    match c
    case 'n' => "\n"
    case 't' => "\t"
    case 'r' => "\r"
    case '"' => "\""
    case '\\' => "\\"
    case _ => ['\\', c]
  }

  /** The text `s` stands for once its escape sequences are replaced; a lone trailing backslash
      stays. */
  function Unescaped(s: string): string {
    if s == [] then []
    else if s[0] != '\\' then [s[0]] + Unescaped(s[1..])
    else if |s| == 1 then "\\"
    else EscapeValue(s[1]) + Unescaped(s[2..])
  }

  /** `unescape`: one pass over the characters, a backslash consuming the character after it. */
  method Unescape(s: string) returns (out: string)
    ensures out == Unescaped(s)
  {
    out := "";
    var i := 0;
    while i < |s|
      invariant 0 <= i <= |s|
      invariant out + Unescaped(s[i..]) == Unescaped(s)
    {
      var c := s[i];
      if c == '\\' {
        if i + 1 < |s| {
          UnescapedAtEscape(s, i);
          out := out + EscapeValue(s[i + 1]);
          i := i + 2;
        } else {
          out := out + "\\";
          i := i + 1;
        }
      } else {
        out := out + [c];
        assert s[i..][1..] == s[i + 1..];
        i := i + 1;
      }
    }
  }

  lemma UnescapedAtEscape(s: string, i: nat)
    requires i + 1 < |s| && s[i] == '\\'
    ensures Unescaped(s[i..]) == EscapeValue(s[i + 1]) + Unescaped(s[i + 2..])
  {
    assert s[i..][2..] == s[i + 2..];
  }

  /** Text without backslashes is its own unescaping. */
  lemma {:induction false} UnescapeKeepsPlainText(s: string)
    requires '\\' !in s
    ensures Unescaped(s) == s
  {
    if s != [] {
      assert '\\' !in s[1..];
      UnescapeKeepsPlainText(s[1..]);
    }
  }

  /** Unescaping a text that starts with a part without backslashes keeps that part as it is. */
  lemma {:induction false} UnescapePlainPrefix(a: string, t: string)
    requires '\\' !in a
    ensures Unescaped(a + t) == a + Unescaped(t)
  {
    if a == [] {
      assert a + t == t;
    } else {
      assert (a + t)[0] == a[0];
      assert (a + t)[1..] == a[1..] + t;
      assert '\\' !in a[1..];
      UnescapePlainPrefix(a[1..], t);
    }
  }

  /** A backslash followed by `c` is replaced by `EscapeValue(c)`: a newline, tab, carriage
      return, quote or backslash for `n`, `t`, `r`, `"` and `\`, and itself otherwise. */
  lemma UnescapeSequence(a: string, c: char, b: string)
    requires '\\' !in a
    ensures Unescaped(a + ['\\', c] + b) == a + EscapeValue(c) + Unescaped(b)
  {
    UnescapePlainPrefix(a, ['\\', c] + b);
    assert a + ['\\', c] + b == a + (['\\', c] + b);
    assert (['\\', c] + b)[2..] == b;
  }

  /** A backslash at the very end is kept. */
  lemma UnescapeTrailingBackslash(a: string)
    requires '\\' !in a
    ensures Unescaped(a + "\\") == a + "\\"
  {
    UnescapePlainPrefix(a, "\\");
  }

  /** How a character is written so that `Unescaped` gives it back. */
  function EscapeCode(c: char): string {
    match c
    case '\n' => "\\n"
    case '\t' => "\\t"
    case '\r' => "\\r"
    case '"' => "\\\""
    case '\\' => "\\\\"
    case _ => [c]
  }

  /** The escaped spelling of a text, as a user writes it on the command line or in a
      `post_prompt` value. */
  function Escaped(s: string): string {
    if s == [] then [] else EscapeCode(s[0]) + Escaped(s[1..])
  }

  lemma UnescapeCode(c: char, t: string)
    ensures Unescaped(EscapeCode(c) + t) == [c] + Unescaped(t)
  {
    var e := EscapeCode(c);
    if |e| == 2 {
      assert (e + t)[2..] == t;
    } else {
      assert (e + t)[1..] == t;
    }
  }

  lemma {:induction false} EscapedAvoids(s: string, c: char)
    requires c !in s && c !in "\\ntr\""
    ensures c !in Escaped(s)
  {
    if s != [] {
      assert c !in s[1..];
      EscapedAvoids(s[1..], c);
    }
  }

  /** Only a quote is escaped into a quote. */
  lemma {:induction false} EscapedWithoutQuote(s: string)
    requires '"' !in s
    ensures '"' !in Escaped(s)
  {
    if s != [] {
      assert '"' !in s[1..];
      EscapedWithoutQuote(s[1..]);
    }
  }

  /** Unescaping undoes escaping: every text has a spelling that unescapes to it. */
  lemma {:induction false} UnescapeInvertsEscape(s: string)
    ensures Unescaped(Escaped(s)) == s
  {
    if s != [] {
      UnescapeCode(s[0], Escaped(s[1..]));
      UnescapeInvertsEscape(s[1..]);
    }
  }

  // ----- quote tracking, shared by strip_comments and contains_closing_bracket_outside_quotes -----

  /** Position `j` of `s` is outside quotes: an even number of `"` precede it. Both scanners toggle
      their in-string flag on every `"`, with no escape handling, and start each line outside. */
  predicate OutsideQuotes(s: string, j: nat)
    requires j <= |s|
  {
    Count(s[..j], '"') % 2 == 0
  }

  /** Every `c` of `s` stands between quotes, as the two scanners count them, so neither takes
      it for a comment or for the end of an array. */
  predicate Shielded(s: string, c: char) {
    forall j :: 0 <= j < |s| && s[j] == c ==> !OutsideQuotes(s, j)
  }

  lemma ShieldedWithout(s: string, c: char)
    requires c !in s
    ensures Shielded(s, c)
  {
  }

  /** Text with an even number of quotes, followed by more shielded text. */
  lemma {:induction false} ShieldedConcat(a: string, b: string, c: char)
    requires Shielded(a, c) && Count(a, '"') % 2 == 0 && Shielded(b, c)
    ensures Shielded(a + b, c)
  {
    forall j | 0 <= j < |a + b| && (a + b)[j] == c
      ensures !OutsideQuotes(a + b, j)
    {
      if j < |a| {
        assert (a + b)[..j] == a[..j];
        assert a[j] == c;
      } else {
        ShieldedAfter(a, b, c, j - |a|);
      }
    }
  }

  lemma {:induction false} ShieldedAfter(a: string, b: string, c: char, k: nat)
    requires Count(a, '"') % 2 == 0 && Shielded(b, c) && k < |b| && b[k] == c
    ensures (a + b)[|a| + k] == c
    ensures !OutsideQuotes(a + b, |a| + k)
  {
    assert !OutsideQuotes(b, k);
    assert (a + b)[..|a| + k] == a + b[..k];
    CountConcat(a, b[..k], '"');
  }

  /** Shielded text between two pieces that hold neither `c` nor a quote. */
  lemma {:induction false} ShieldedFrame(p: string, body: string, q: string, c: char)
    requires c !in p && '"' !in p && c !in q
    requires Shielded(body, c) && Count(body, '"') % 2 == 0
    ensures Shielded(p + body + q, c)
  {
    CountAbsent(p, '"');
    ShieldedConcat(p, body, c);
    CountConcat(p, body, '"');
    ShieldedConcat(p + body, q, c);
  }

  /** Text without quotes, between two quotes: everything in it is inside them. */
  lemma {:induction false} ShieldedQuoted(e: string, c: char)
    requires '"' !in e && c != '"'
    ensures Shielded("\"" + e + "\"", c)
    ensures Count("\"" + e + "\"", '"') == 2
  {
    var q := "\"" + e + "\"";
    forall j | 0 <= j < |q| && q[j] == c
      ensures !OutsideQuotes(q, j)
    {
      assert 1 <= j <= |e|;
      var f := e[..j - 1];
      assert q[..j] == "\"" + f;
      assert '"' !in f by {
        forall i | 0 <= i < |f| ensures f[i] != '"' { assert f[i] == e[i]; }
      }
      CountAbsent(f, '"');
      CountConcat("\"", f, '"');
    }
    CountAbsent(e, '"');
    CountConcat("\"", e, '"');
    CountConcat("\"" + e, "\"", '"');
  }

  /** A line whose every `#` is shielded has no comment. */
  lemma ShieldedNoComment(s: string)
    requires Shielded(s, '#')
    ensures CommentFree(s) == s
  {
    CommentFreeAt(s, |s|);
  }

  /** Text whose every `]` is shielded does not close an array. */
  lemma ShieldedNoClose(s: string)
    requires Shielded(s, ']')
    ensures !ClosesOutsideQuotes(s)
  {
  }

  // ----- strip_comments -----

  predicate IsCommentStart(s: string, j: nat)
    requires j < |s|
  {
    s[j] == '#' && OutsideQuotes(s, j)
  }

  function CommentStartFrom(s: string, i: nat): (k: nat)
    requires i <= |s|
    requires forall j :: 0 <= j < i ==> !IsCommentStart(s, j)
    ensures i <= k <= |s|
    ensures k < |s| ==> IsCommentStart(s, k)
    ensures forall j :: 0 <= j < k ==> !IsCommentStart(s, j)
    decreases |s| - i
  {
    if i == |s| || IsCommentStart(s, i) then i else CommentStartFrom(s, i + 1)
  }

  /** The line with its comment removed: the prefix of `s` that ends just before its first `#`
      outside quotes, or all of `s` when there is none. */
  function CommentFree(s: string): (r: string)
    ensures |r| <= |s| && r == s[..|r|]
  {
    s[..CommentStartFrom(s, 0)]
  }

  /** `CommentFree` stops at the first comment start, and at the end when there is none. */
  lemma CommentFreeSpec(s: string)
    ensures |CommentFree(s)| < |s| ==> IsCommentStart(s, |CommentFree(s)|)
    ensures forall j :: 0 <= j < |CommentFree(s)| ==> !IsCommentStart(s, j)
  {
    var k := CommentStartFrom(s, 0);
    assert CommentFree(s) == s[..k];
  }

  /** `strip_comments`. */
  method StripComments(s: string) returns (out: string)
    ensures out == CommentFree(s)
  {
    out := "";
    var inStr := false;
    var i := 0;
    while i < |s|
      invariant 0 <= i <= |s|
      invariant out == s[..i]
      invariant inStr <==> !OutsideQuotes(s, i)
      invariant forall j :: 0 <= j < i ==> !IsCommentStart(s, j)
    {
      var c := s[i];
      CountStep(s, i, '"');
      if c == '"' {
        out := out + [c];
        inStr := !inStr;
      } else if !inStr && c == '#' {
        assert IsCommentStart(s, i);
        break;
      } else {
        out := out + [c];
      }
      i := i + 1;
    }
    CommentFreeAt(s, i);
  }

  /** Cutting at the first comment start, or at the end when there is none, is `CommentFree`. */
  lemma CommentFreeAt(s: string, i: nat)
    requires i <= |s|
    requires forall j :: 0 <= j < i ==> !IsCommentStart(s, j)
    requires i == |s| || IsCommentStart(s, i)
    ensures CommentFree(s) == s[..i]
  {
    CommentFreeSpec(s);
  }

  /** A line without `#` has no comment. */
  lemma CommentFreeWithoutHash(s: string)
    requires '#' !in s
    ensures CommentFree(s) == s
  {
    CommentFreeAt(s, |s|);
  }

  // ----- contains_closing_bracket_outside_quotes -----

  /** Some `]` of `s` is outside quotes. */
  predicate ClosesOutsideQuotes(s: string) {
    exists j | 0 <= j < |s| :: s[j] == ']' && OutsideQuotes(s, j)
  }

  /** `contains_closing_bracket_outside_quotes`. */
  method ContainsClosingBracketOutsideQuotes(s: string) returns (found: bool)
    ensures found == ClosesOutsideQuotes(s)
  {
    var inStr := false;
    var i := 0;
    while i < |s|
      invariant 0 <= i <= |s|
      invariant inStr <==> !OutsideQuotes(s, i)
      invariant forall j :: 0 <= j < i ==> !(s[j] == ']' && OutsideQuotes(s, j))
    {
      var c := s[i];
      CountStep(s, i, '"');
      if c == '"' {
        inStr := !inStr;
      }
      if !inStr && c == ']' {
        return true;
      }
      i := i + 1;
    }
    return false;
  }

  // ----- parse_array_items -----

  const Unterminated := "Unterminated string in array"

  /** The rest of a quoted item after its opening quote: the item's text up to the closing `"`,
      a backslash taking the next character as it is, and the text after that quote. None when
      the text ends inside the item. */
  function QuotedItem(u: string): (r: Option<(string, string)>)
    ensures r.Some? ==> |r.value.1| < |u|
  {
    if u == [] then None
    else if u[0] == '\\' then
      if |u| == 1 then None
      else match QuotedItem(u[2..])
        case None => None
        case Some((item, rest)) => Some(([u[1]] + item, rest))
    else if u[0] == '"' then Some(([], u[1..]))
    else match QuotedItem(u[1..])
      case None => None
      case Some((item, rest)) => Some(([u[0]] + item, rest))
  }

  function Cons(item: string, r: Result<seq<string>, string>): Result<seq<string>, string> {
    match r
    case Ok(items) => Ok([item] + items)
    case Err(e) => Err(e)
  }

  /** The items of an array after its `[`: every quoted item up to the first `]` outside quotes,
      whatever stands between them (commas included) skipped. */
  function ItemsAfterOpen(t: string): (r: Result<seq<string>, string>)
    ensures r.Err? ==> r.error == Unterminated
    decreases |t|
  {
    if t == [] || t[0] == ']' then Ok([])
    else if t[0] == '"' then
      match QuotedItem(t[1..])
      case None => Err(Unterminated)
      case Some((item, rest)) => Cons(item, ItemsAfterOpen(rest))
    else ItemsAfterOpen(t[1..])
  }

  /** The items of the array in `s`; everything before the first `[` is skipped. */
  function ArrayItems(s: string): (r: Result<seq<string>, string>)
    ensures r.Err? ==> r.error == Unterminated
  {
    if s == [] then Ok([])
    else if s[0] == '[' then ItemsAfterOpen(s[1..])
    else ArrayItems(s[1..])
  }

  function Append(items: seq<string>, r: Result<seq<string>, string>): Result<seq<string>, string> {
    match r
    case Ok(more) => Ok(items + more)
    case Err(e) => Err(e)
  }

  /** What the array scan yields from inside a quoted item: `items` found so far, `buf` the part
      of the current item read so far, `q` the scan of the rest of that item. */
  function Resume(items: seq<string>, buf: string, q: Option<(string, string)>): Result<seq<string>, string> {
    match q
    case None => Err(Unterminated)
    case Some((item, rest)) => Append(items + [buf + item], ItemsAfterOpen(rest))
  }

  lemma AppendNil(r: Result<seq<string>, string>)
    ensures Append([], r) == r
  {
    match r
    case Ok(more) => assert [] + more == more;
    case Err(_) =>
  }

  /** A `"` outside quotes opens an item. */
  lemma OpenQuote(items: seq<string>, t: string)
    requires t != [] && t[0] == '"'
    ensures Append(items, ItemsAfterOpen(t)) == Resume(items, [], QuotedItem(t[1..]))
  {
    match QuotedItem(t[1..])
    case None =>
    case Some((item, rest)) =>
      match ItemsAfterOpen(rest)
      case Err(_) =>
      case Ok(more) =>
        assert "" + item == item;
        assert items + ([item] + more) == items + [item] + more;
  }

  /** An ordinary character inside quotes joins the current item. */
  lemma PlainInQuotes(items: seq<string>, buf: string, u: string)
    requires u != [] && u[0] != '\\' && u[0] != '"'
    ensures Resume(items, buf, QuotedItem(u)) == Resume(items, buf + [u[0]], QuotedItem(u[1..]))
  {
    match QuotedItem(u[1..])
    case None =>
      assert QuotedItem(u) == None;
    case Some((item, rest)) =>
      assert QuotedItem(u) == Some(([u[0]] + item, rest));
      assert buf + ([u[0]] + item) == buf + [u[0]] + item;
  }

  /** A backslash inside quotes makes the next character join the current item as it is. */
  lemma EscapeInQuotes(items: seq<string>, buf: string, u: string)
    requires |u| >= 2 && u[0] == '\\'
    ensures Resume(items, buf, QuotedItem(u)) == Resume(items, buf + [u[1]], QuotedItem(u[2..]))
  {
    match QuotedItem(u[2..])
    case None =>
      assert QuotedItem(u) == None;
    case Some((item, rest)) =>
      assert QuotedItem(u) == Some(([u[1]] + item, rest));
      assert buf + ([u[1]] + item) == buf + [u[1]] + item;
  }

  /** A `"` inside quotes completes the current item. */
  lemma CloseQuote(items: seq<string>, buf: string, u: string)
    requires u != [] && u[0] == '"'
    ensures Resume(items, buf, QuotedItem(u)) == Append(items + [buf], ItemsAfterOpen(u[1..]))
  {
    assert buf + [] == buf;
  }

  /** `parse_array_items`. */
  method ParseArrayItems(s: string) returns (r: Result<seq<string>, string>)
    ensures r == ArrayItems(s)
  {
    var items: seq<string> := [];
    var inStr := false;
    var buf := "";
    var escaped := false;
    var started := false;
    var i := 0;
    while i < |s|
      invariant 0 <= i <= |s|
      invariant !started ==>
        !inStr && !escaped && items == [] && buf == [] && ArrayItems(s[i..]) == ArrayItems(s)
      invariant started && !inStr ==>
        !escaped && buf == [] && Append(items, ItemsAfterOpen(s[i..])) == ArrayItems(s)
      invariant inStr && !escaped ==>
        started && Resume(items, buf, QuotedItem(s[i..])) == ArrayItems(s)
      invariant escaped ==>
        started && inStr && 0 < i && s[i - 1] == '\\' && Resume(items, buf, QuotedItem(s[i - 1..])) == ArrayItems(s)
    {
      var c := s[i];
      assert s[i..][1..] == s[i + 1..];
      if !started {
        if c == '[' {
          AppendNil(ItemsAfterOpen(s[i + 1..]));
          started := true;
        }
      } else if c == ']' && !inStr {
        assert items + [] == items;
        break;
      } else if inStr {
        if escaped {
          assert s[i - 1..][2..] == s[i + 1..];
          EscapeInQuotes(items, buf, s[i - 1..]);
          buf := buf + [c];
          escaped := false;
        } else if c == '\\' {
          escaped := true;
        } else if c == '"' {
          CloseQuote(items, buf, s[i..]);
          inStr := false;
          items := items + [buf];
          buf := "";
        } else {
          PlainInQuotes(items, buf, s[i..]);
          buf := buf + [c];
        }
      } else if c == '"' {
        OpenQuote(items, s[i..]);
        inStr := true;
      }
      i := i + 1;
    }
    if inStr {
      return Err(Unterminated);
    }
    assert items + [] == items;
    return Ok(items);
  }

  /** Everything before the first `[` is ignored. */
  lemma {:induction false} ArrayItemsSkipPreamble(p: string, s: string)
    requires '[' !in p
    ensures ArrayItems(p + s) == ArrayItems(s)
  {
    if p == [] {
      assert p + s == s;
    } else {
      assert (p + s)[0] == p[0];
      assert (p + s)[1..] == p[1..] + s;
      assert '[' !in p[1..];
      ArrayItemsSkipPreamble(p[1..], s);
    }
  }

  /** How an item is spelled inside quotes: `"` and `\` are preceded by a backslash. */
  function EscapeQuoted(x: string): string {
    if x == [] then []
    else (if x[0] == '"' || x[0] == '\\' then ['\\', x[0]] else [x[0]]) + EscapeQuoted(x[1..])
  }

  function Quote(x: string): string {
    "\"" + EscapeQuoted(x) + "\""
  }

  lemma {:induction false} QuotedItemOfEscaped(x: string, rest: string)
    ensures QuotedItem(EscapeQuoted(x) + "\"" + rest) == Some((x, rest))
  {
    if x == [] {
      assert EscapeQuoted(x) + "\"" + rest == "\"" + rest;
    } else {
      var tail := EscapeQuoted(x[1..]) + "\"" + rest;
      var head := if x[0] == '"' || x[0] == '\\' then ['\\', x[0]] else [x[0]];
      QuotedItemOfEscaped(x[1..], rest);
      assert EscapeQuoted(x) == head + EscapeQuoted(x[1..]);
      Regroup3(head, EscapeQuoted(x[1..]), "\"", rest);
      if x[0] == '"' || x[0] == '\\' {
        QuotedItemAfterEscape(x[0], tail);
      } else {
        QuotedItemAfterPlain(x[0], tail);
      }
      assert [x[0]] + x[1..] == x;
    }
  }

  lemma Regroup3(a: string, b: string, c: string, d: string)
    ensures (a + b) + c + d == a + (b + c + d)
  {
  }

  /** Inside quotes, a backslash and the character after it. */
  lemma QuotedItemAfterEscape(c: char, tail: string)
    ensures QuotedItem(['\\', c] + tail) ==
      match QuotedItem(tail)
      case None => None
      case Some((item, rest)) => Some(([c] + item, rest))
  {
    var u := ['\\', c] + tail;
    assert u[0] == '\\' && u[1] == c && u[2..] == tail;
  }

  /** Inside quotes, a character other than a backslash or a quote. */
  lemma QuotedItemAfterPlain(c: char, tail: string)
    requires c != '\\' && c != '"'
    ensures QuotedItem([c] + tail) ==
      match QuotedItem(tail)
      case None => None
      case Some((item, rest)) => Some(([c] + item, rest))
  {
    var u := [c] + tail;
    assert u[0] == c && u[1..] == tail;
  }

  lemma {:induction false} EscapeQuotedAvoids(x: string, c: char)
    requires c !in x && c != '\\'
    ensures c !in EscapeQuoted(x)
  {
    if x != [] {
      assert c !in x[1..];
      EscapeQuotedAvoids(x[1..], c);
    }
  }

  /** A quoted item without `"` of its own holds exactly two. */
  lemma QuoteCount(x: string)
    requires '"' !in x
    ensures Count(Quote(x), '"') == 2
  {
    EscapeQuotedAvoids(x, '"');
    CountAbsent(EscapeQuoted(x), '"');
    CountConcat("\"", EscapeQuoted(x), '"');
    CountConcat("\"" + EscapeQuoted(x), "\"", '"');
  }

  /** In a quoted item without `"` of its own, every other character is inside the quotes. */
  lemma {:induction false} QuoteShielded(x: string, c: char)
    requires '"' !in x && c != '"'
    ensures Shielded(Quote(x), c) && Count(Quote(x), '"') == 2
  {
    EscapeQuotedAvoids(x, '"');
    ShieldedQuoted(EscapeQuoted(x), c);
  }

  /** Text between items holds no `"` and no `]`. */
  predicate IsGap(g: string) {
    '"' !in g && ']' !in g
  }

  /** Commas, spaces and any other text without `"` or `]` between items are irrelevant. */
  lemma {:induction false} ItemsSkipGap(g: string, t: string)
    requires IsGap(g)
    ensures ItemsAfterOpen(g + t) == ItemsAfterOpen(t)
  {
    if g == [] {
      assert g + t == t;
    } else {
      assert (g + t)[0] == g[0];
      assert (g + t)[1..] == g[1..] + t;
      assert IsGap(g[1..]);
      ItemsSkipGap(g[1..], t);
    }
  }

  /** The body of an array literal: `gaps[0]`, the first item quoted, `gaps[1]`, and so on. */
  function Listed(items: seq<string>, gaps: seq<string>): string
    requires |gaps| == |items| + 1
  {
    if items == [] then gaps[0] else gaps[0] + Quote(items[0]) + Listed(items[1..], gaps[1..])
  }

  /** Reading the array back: any items, quoted and separated by any gaps (commas, spaces,
      newlines joined as spaces, a trailing comma), come back exactly, and the text after the
      closing `]` is ignored. */
  lemma {:induction false} ItemsOfListed(items: seq<string>, gaps: seq<string>, tail: string)
    requires |gaps| == |items| + 1
    requires forall k :: 0 <= k < |gaps| ==> IsGap(gaps[k])
    ensures ItemsAfterOpen(Listed(items, gaps) + "]" + tail) == Ok(items)
  {
    if items == [] {
      ItemsSkipGap(gaps[0], "]" + tail);
      assert Listed(items, gaps) + "]" + tail == gaps[0] + ("]" + tail);
    } else {
      var rest := Listed(items[1..], gaps[1..]) + "]" + tail;
      ListedCons(items, gaps, "]", tail);
      ItemsSkipGap(gaps[0], "\"" + EscapeQuoted(items[0]) + "\"" + rest);
      ItemsOfQuoted(items[0], rest);
      ItemsOfListed(items[1..], gaps[1..], tail);
      assert [items[0]] + items[1..] == items;
    }
  }

  /** Unfolding `Listed` once, with the text that follows it. */
  lemma ListedCons(items: seq<string>, gaps: seq<string>, a: string, b: string)
    requires |gaps| == |items| + 1 && items != []
    ensures Listed(items, gaps) + a + b ==
      gaps[0] + ("\"" + EscapeQuoted(items[0]) + "\"" + (Listed(items[1..], gaps[1..]) + a + b))
  {
  }

  /** A quoted, escaped item is read back as itself. */
  lemma ItemsOfQuoted(x: string, rest: string)
    ensures ItemsAfterOpen("\"" + EscapeQuoted(x) + "\"" + rest) == Cons(x, ItemsAfterOpen(rest))
  {
    var quoted := EscapeQuoted(x) + "\"" + rest;
    assert "\"" + EscapeQuoted(x) + "\"" + rest == "\"" + quoted;
    assert ("\"" + quoted)[1..] == quoted;
    QuotedItemOfEscaped(x, rest);
  }

  lemma ArrayItemsRoundTrip(items: seq<string>, gaps: seq<string>, tail: string)
    requires |gaps| == |items| + 1
    requires forall k :: 0 <= k < |gaps| ==> IsGap(gaps[k])
    ensures ArrayItems("[" + Listed(items, gaps) + "]" + tail) == Ok(items)
  {
    var s := "[" + Listed(items, gaps) + "]" + tail;
    assert s[1..] == Listed(items, gaps) + "]" + tail;
    ItemsOfListed(items, gaps, tail);
  }

  /** A quoted item whose closing quote never comes. */
  lemma {:induction false} QuotedItemUnclosed(u: string)
    requires '"' !in u
    ensures QuotedItem(u) == None
  {
    if u != [] {
      if u[0] == '\\' && |u| > 1 {
        assert '"' !in u[2..];
        QuotedItemUnclosed(u[2..]);
      } else if u[0] != '\\' {
        assert '"' !in u[1..];
        QuotedItemUnclosed(u[1..]);
      }
    }
  }

  /** When the text ends inside quotes the whole array fails with "Unterminated string in array",
      whatever complete items come before. */
  lemma {:induction false} ItemsOfUnterminated(items: seq<string>, gaps: seq<string>, t: string)
    requires |gaps| == |items| + 1
    requires forall k :: 0 <= k < |gaps| ==> IsGap(gaps[k])
    requires '"' !in t
    ensures ItemsAfterOpen(Listed(items, gaps) + "\"" + t) == Err(Unterminated)
  {
    if items == [] {
      ItemsSkipGap(gaps[0], "\"" + t);
      assert Listed(items, gaps) + "\"" + t == gaps[0] + ("\"" + t);
      assert ("\"" + t)[1..] == t;
      QuotedItemUnclosed(t);
    } else {
      var rest := Listed(items[1..], gaps[1..]) + "\"" + t;
      ListedCons(items, gaps, "\"", t);
      ItemsSkipGap(gaps[0], "\"" + EscapeQuoted(items[0]) + "\"" + rest);
      ItemsOfQuoted(items[0], rest);
      ItemsOfUnterminated(items[1..], gaps[1..], t);
    }
  }

  lemma ArrayItemsUnterminated(items: seq<string>, gaps: seq<string>, t: string)
    requires |gaps| == |items| + 1
    requires forall k :: 0 <= k < |gaps| ==> IsGap(gaps[k])
    requires '"' !in t
    ensures ArrayItems("[" + Listed(items, gaps) + "\"" + t) == Err(Unterminated)
  {
    var s := "[" + Listed(items, gaps) + "\"" + t;
    assert s[1..] == Listed(items, gaps) + "\"" + t;
    ItemsOfUnterminated(items, gaps, t);
  }

  // ----- the source's own examples -----

  lemma UnescapeQuoteBackslashExample(t: string)
    requires t == "\\\"\\\\c"
    ensures Unescaped(t) == "\"\\c"
  {
    var u := "\\\\c";
    assert u == "" + ['\\', '\\'] + "c";
    UnescapeSequence("", '\\', "c");
    UnescapeKeepsPlainText("c");
    assert t == "" + ['\\', '"'] + u;
    UnescapeSequence("", '"', u);
  }

  lemma UnescapeCarriageReturnExample(s: string, a: string, b: string)
    requires s == "line1\\rline2" && a == "line1" && b == "line2"
    ensures Unescaped(s) == "line1\rline2"
  {
    assert s == a + ['\\', 'r'] + b;
    UnescapeSequence(a, 'r', b);
    UnescapeKeepsPlainText(b);
  }

  lemma CommentExample()
    ensures CommentFree("ab#cd") == "ab"
  {
    var s := "ab#cd";
    CountStep(s, 0, '"');
    CountStep(s, 1, '"');
    CommentFreeAt(s, 2);
  }

  lemma QuotedCommentExample(t: string)
    requires t == "\"ab#cd\" # trailing"
    ensures CommentFree(t) == "\"ab#cd\" "
  {
    QuotedHashIsNotComment(t);
    TrailingHashIsComment(t);
    CommentFreeAt(t, 8);
  }

  lemma QuotedHashIsNotComment(t: string)
    requires t == "\"ab#cd\" # trailing"
    ensures forall j :: 0 <= j < 8 ==> !IsCommentStart(t, j)
  {
    CountStep(t, 0, '"');
    CountStep(t, 1, '"');
    CountStep(t, 2, '"');
  }

  lemma TrailingHashIsComment(t: string)
    requires t == "\"ab#cd\" # trailing"
    ensures IsCommentStart(t, 8)
  {
    var k := 0;
    while k < 8
      invariant k <= 8 && Count(t[..k], '"') == if k == 0 then 0 else if k < 7 then 1 else 2
    {
      CountStep(t, k, '"');
      k := k + 1;
    }
  }

  /** A `]` between quotes does not count, a later one outside them does (src/lib.rs:1067). */
  lemma ClosingBracketExample(t: string)
    requires t == "[\"not]here\"]]"
    ensures ClosesOutsideQuotes(t)
  {
    var k := 0;
    while k < 11
      invariant k <= 11 && Count(t[..k], '"') == if k < 2 then 0 else if k < 11 then 1 else 2
    {
      CountStep(t, k, '"');
      k := k + 1;
    }
    assert t[11] == ']' && OutsideQuotes(t, 11);
  }

  /** The only `]` stands between quotes (src/lib.rs:1068). */
  lemma NoClosingBracketExample(t: string)
    requires t == "[\"no]close\""
    ensures !ClosesOutsideQuotes(t)
  {
    CountStep(t, 0, '"');
    CountStep(t, 1, '"');
    CountStep(t, 2, '"');
    CountStep(t, 3, '"');
    assert Count(t[..4], '"') == 1;
    assert forall j | 0 <= j < |t| && t[j] == ']' :: j == 4;
  }

  /** The bracket scan counts the escaped quote in `["a\"b"]`, so its `]` seems quoted. */
  lemma EscapedQuoteUnclosed()
    ensures !ClosesOutsideQuotes("[\"a\\\"b\"]")
  {
    var value := "[\"a\\\"b\"]";
    assert value[..0] == [];
    CountStep(value, 0, '"');
    CountStep(value, 1, '"');
    CountStep(value, 2, '"');
    CountStep(value, 3, '"');
    CountStep(value, 4, '"');
    CountStep(value, 5, '"');
    CountStep(value, 6, '"');
    forall j | 0 <= j < |value| && value[j] == ']' ensures !OutsideQuotes(value, j) {
      assert j == 7;
    }
  }

  /** Item parsing alone honours the escape and reads `a"b` from `["a\"b"]`. */
  lemma EscapedQuoteItem()
    ensures ArrayItems("[\"a\\\"b\"]") == Ok(["a\"b"])
  {
    var items, gaps := ["a\"b"], ["", ""];
    assert EscapeQuoted("a\"b") == "a\\\"b" by {
      assert EscapeQuoted("a\"b") == "a" + EscapeQuoted("\"b");
      assert EscapeQuoted("\"b") == "\\\"" + EscapeQuoted("b");
      assert EscapeQuoted("b") == "b";
    }
    assert Listed(items, gaps) == "\"a\\\"b\"";
    ArrayItemsRoundTrip(items, gaps, "");
    assert "[" + Listed(items, gaps) + "]" + "" == "[\"a\\\"b\"]";
  }

  lemma ArrayItemsExample(s: string, items: seq<string>)
    requires s == "[\"a\\\"b\", \"c\"]" && items == ["a\"b", "c"]
    ensures ArrayItems(s) == Ok(items)
  {
    var gaps := ["", ", ", ""];
    ListedExample(items, gaps);
    ArrayItemsRoundTrip(items, gaps, "");
    assert "[" + Listed(items, gaps) + "]" + "" == s;
  }

  lemma ListedExample(items: seq<string>, gaps: seq<string>)
    requires items == ["a\"b", "c"] && gaps == ["", ", ", ""]
    ensures Listed(items, gaps) == "\"a\\\"b\", \"c\""
  {
    var second := Quote(items[1]);
    assert second == "\"c\"" by {
      assert EscapeQuoted("c") == "c";
    }
    var first := Quote(items[0]);
    assert first == "\"a\\\"b\"" by {
      assert EscapeQuoted("a\"b") == "a" + EscapeQuoted("\"b");
      assert EscapeQuoted("\"b") == "\\\"" + EscapeQuoted("b");
      assert EscapeQuoted("b") == "b";
    }
    var last := Listed(items[2..], gaps[2..]);
    assert last == "";
    var tail := Listed(items[1..], gaps[1..]);
    assert items[1..][1..] == items[2..] && gaps[1..][1..] == gaps[2..];
    assert tail == ", " + second + last;
    assert Listed(items, gaps) == "" + first + tail;
  }

  lemma ArrayItemsUnterminatedExample()
    ensures ArrayItems("[\"unterminated") == Err(Unterminated)
  {
    ArrayItemsUnterminated([], [""], "unterminated");
    assert "[" + Listed([], [""]) + "\"" + "unterminated" == "[\"unterminated";
  }

  lemma ArrayItemsBackslashExample()
    ensures ArrayItems("[\"a\\\\\"]") == Ok(["a\\"])
  {
    var items, gaps := ["a\\"], ["", ""];
    assert EscapeQuoted("a\\") == "a\\\\";
    assert Listed(items, gaps) == "\"a\\\\\"";
    ArrayItemsRoundTrip(items, gaps, "");
    assert "[" + Listed(items, gaps) + "]" + "" == "[\"a\\\\\"]";
  }
}
