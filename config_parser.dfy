/** `parse_config_toml` (src/lib.rs:409-497): the line-by-line reader of the configuration
    file. The reader's state between lines is `ParserState`; `Step` is what one line does to
    it, `Run` folds `Step` over the lines, and `ParseConfigToml` is the source's loop, proved
    equal to `Parse`. */
module ConfigParser {
  import opened Wrappers
  import opened Text
  import opened Scan
  import opened Profiles

  const EmptySection := "Empty section name []"
  const NotAString := "post_prompt must be a string"
  const NotAnArray := "depends_on must be an array"
  const OutsideSection := "depends_on outside of a profile section"

  function InvalidArrayMessage(current: Option<string>, e: string): string {
    "Invalid depends_on array for [" + current.GetOr("") + "]: " + e
  }

  /** What the reader carries from one line to the next: the profiles read so far, the section
      being read, the last `post_prompt`, and a `depends_on` array still waiting for its `]`. */
  datatype ParserState = ParserState(
    profiles: map<string, seq<string>>,
    current: Option<string>,
    postPrompt: Option<string>,
    collecting: bool,
    buffer: string)

  const Initial := ParserState(map[], None, None, false, "")

  /** A complete array in `buf`: its items replace the current section's dependency list. */
  function Finish(st: ParserState, buf: string): Result<ParserState, string> {
    match ArrayItems(buf)
    case Err(e) => Err(InvalidArrayMessage(st.current, e))
    case Ok(items) =>
      if st.current.None? then Err(OutsideSection)
      else Ok(st.(profiles := st.profiles[st.current.value := items], collecting := false, buffer := ""))
  }

  /** The array text read so far is `buf`: finish it once it has a `]` outside quotes, keep
      collecting otherwise. */
  function Accumulate(st: ParserState, buf: string): Result<ParserState, string> {
    if ClosesOutsideQuotes(buf) then Finish(st, buf)
    else Ok(st.(collecting := true, buffer := buf))
  }

  /** The text a `post_prompt` value stands for: a quoted string, unescaped. The guard also asks
      for two characters, so that a value that is a single `"` is rejected rather than sliced. */
  function PostPromptValue(value: string): (r: Result<string, string>)
    ensures r.Ok? <==> |value| >= 2 && StartsWith(value, '"') && EndsWith(value, '"')
    ensures r.Err? ==> r.error == NotAString
  {
    if !StartsWith(value, '"') || !EndsWith(value, '"') || |value| < 2 then Err(NotAString)
    else Ok(Unescaped(value[1..|value| - 1]))
  }

  /** The outcomes of the `post_prompt` branch as the source has it (src/lib.rs:458-462). */
  datatype PostPromptOutcome = Stored(text: string) | Rejected(message: string) | Panics

  /** The `post_prompt` branch as written: the guard checks only both ends, and the slice
      `value[1..len - 1]` panics when `value` is the single character `"`. */
  function PostPromptValueAsWritten(value: string): PostPromptOutcome {
    if !StartsWith(value, '"') || !EndsWith(value, '"') then Rejected(NotAString)
    else if |value| - 1 < 1 then Panics
    else Stored(Unescaped(value[1..|value| - 1]))
  }

  /** The line `post_prompt = "` passes the source's guard and panics. */
  lemma PostPromptLoneQuotePanics()
    ensures PostPromptValueAsWritten("\"") == Panics
    ensures PostPromptValue("\"") == Err(NotAString)
  {
  }

  /** On every other value the corrected guard does what the source does. */
  lemma PostPromptCorrectionAgrees(value: string)
    requires value != "\""
    ensures PostPromptValueAsWritten(value) != Panics
    ensures PostPromptValue(value).Ok? ==> PostPromptValueAsWritten(value) == Stored(PostPromptValue(value).value)
    ensures PostPromptValue(value).Err? ==> PostPromptValueAsWritten(value) == Rejected(PostPromptValue(value).error)
  {
  }

  /** A `key = value` line outside a multi-line array. Keys other than `post_prompt` and
      `depends_on` are ignored. */
  function KeyValue(st: ParserState, key: string, value: string): Result<ParserState, string> {
    if key == "post_prompt" then
      match PostPromptValue(value)
      case Err(e) => Err(e)
      case Ok(text) => Ok(st.(postPrompt := Some(text)))
    else if key != "depends_on" then Ok(st)
    else if !StartsWith(value, '[') then Err(NotAnArray)
    else Accumulate(st, value)
  }

  /** One line of the file: comment removed and trimmed; blank lines are skipped; inside an
      array the line is added to it after a space; otherwise a section header, a key-value
      line, or anything else, which is ignored. */
  function Step(st: ParserState, raw: string): Result<ParserState, string> {
    var line := Trim(CommentFree(raw));
    if line == [] then Ok(st)
    else if st.collecting then Accumulate(st, st.buffer + " " + line)
    else if StartsWith(line, '[') && EndsWith(line, ']') then
      var name := Trim(line[1..|line| - 1]);
      if name == [] then Err(EmptySection) else Ok(st.(current := Some(name)))
    else match IndexOf(line, '=')
      case None => Ok(st)
      case Some(eq) => KeyValue(st, Trim(line[..eq]), Trim(line[eq + 1..]))
  }

  /** The lines read one after the other, stopping at the first error. */
  function Run(st: ParserState, lines: seq<string>): Result<ParserState, string>
    decreases |lines|
  {
    if lines == [] then Ok(st)
    else match Step(st, lines[0])
      case Err(e) => Err(e)
      case Ok(next) => Run(next, lines[1..])
  }

  /** The configuration a file's text describes. An array still open at the end of the text is
      dropped. */
  function Parse(input: string): Result<Config, string> {
    match Run(Initial, Lines(input))
    case Err(e) => Err(e)
    case Ok(st) => Ok(Config(st.profiles, st.postPrompt))
  }

  /** The array text is now `buf`: the block the source runs after each line of a `depends_on`
      array, parsing and storing the array once it closes. */
  method AccumulateArray(st: ParserState, buf: string) returns (r: Result<ParserState, string>)
    ensures r == Accumulate(st, buf)
  {
    var closes := ContainsClosingBracketOutsideQuotes(buf);
    if !closes {
      return Ok(st.(collecting := true, buffer := buf));
    }
    var parsed := ParseArrayItems(buf);
    if parsed.Err? {
      return Err(InvalidArrayMessage(st.current, parsed.error));
    }
    if st.current.None? {
      return Err(OutsideSection);
    }
    return Ok(st.(profiles := st.profiles[st.current.value := parsed.value], collecting := false, buffer := ""));
  }

  /** The body of the source's loop, for one raw line. */
  method ReadLine(st: ParserState, raw: string) returns (r: Result<ParserState, string>)
    ensures r == Step(st, raw)
  {
    var stripped := StripComments(raw);
    var line := Trim(stripped);
    assert line == Trim(CommentFree(raw));
    if line == [] {
      return Ok(st);
    }
    if st.collecting {
      assert Step(st, raw) == Accumulate(st, st.buffer + " " + line);
      r := AccumulateArray(st, st.buffer + " " + line);
      return;
    }
    if StartsWith(line, '[') && EndsWith(line, ']') {
      var name := Trim(line[1..|line| - 1]);
      assert Step(st, raw) == if name == [] then Err(EmptySection) else Ok(st.(current := Some(name)));
      if name == [] {
        return Err(EmptySection);
      }
      return Ok(st.(current := Some(name)));
    }
    var eq := IndexOf(line, '=');
    if eq.None? {
      return Ok(st);
    }
    assert Step(st, raw) == KeyValue(st, Trim(line[..eq.value]), Trim(line[eq.value + 1..]));
    r := ReadKeyValue(st, Trim(line[..eq.value]), Trim(line[eq.value + 1..]));
  }

  /** The key-value part of the source's loop. */
  method ReadKeyValue(st: ParserState, key: string, value: string) returns (r: Result<ParserState, string>)
    ensures r == KeyValue(st, key, value)
  {
    if key == "post_prompt" {
      if !StartsWith(value, '"') || !EndsWith(value, '"') || |value| < 2 {
        return Err(NotAString);
      }
      var text := Unescape(value[1..|value| - 1]);
      return Ok(st.(postPrompt := Some(text)));
    }
    if key != "depends_on" {
      return Ok(st);
    }
    if !StartsWith(value, '[') {
      return Err(NotAnArray);
    }
    r := AccumulateArray(st, value);
  }

  /** `parse_config_toml`: the lines in order, stopping at the first error. */
  method ParseConfigToml(input: string) returns (r: Result<Config, string>)
    ensures r == Parse(input)
  {
    var lines := Lines(input);
    var st := Initial;
    for k := 0 to |lines|
      invariant Run(st, lines[k..]) == Run(Initial, lines)
    {
      assert lines[k..][1..] == lines[k + 1..];
      var next := ReadLine(st, lines[k]);
      if next.Err? {
        return Err(next.error);
      }
      st := next.value;
    }
    assert lines[|lines|..] == [];
    return Ok(Config(st.profiles, st.postPrompt));
  }

  // ----- reading a file line by line -----

  /** Reading `a + b` is reading `a`, then reading `b` from where `a` left off. */
  lemma {:induction false} RunAppend(st: ParserState, a: seq<string>, b: seq<string>)
    ensures Run(st, a + b) ==
      match Run(st, a)
      case Err(e) => Err(e)
      case Ok(mid) => Run(mid, b)
    decreases |a|
  {
    if a == [] {
      assert a + b == b;
    } else {
      assert (a + b)[0] == a[0];
      assert (a + b)[1..] == a[1..] + b;
      match Step(st, a[0])
      case Err(_) =>
      case Ok(next) => RunAppend(next, a[1..], b);
    }
  }

  /** Reading a line and then the rest. */
  lemma RunCons(st: ParserState, line: string, rest: seq<string>)
    requires Step(st, line).Ok?
    ensures Run(st, [line] + rest) == Run(Step(st, line).value, rest)
  {
    assert ([line] + rest)[0] == line && ([line] + rest)[1..] == rest;
  }

  /** Reading two lines: the second is read from the state the first leaves. */
  lemma RunTwo(st: ParserState, l1: string, l2: string)
    requires Step(st, l1).Ok?
    ensures Run(st, [l1, l2]) == Step(Step(st, l1).value, l2)
  {
    var next := Step(st, l1).value;
    assert [l1, l2][0] == l1 && [l1, l2][1..] == [l2];
    assert Run(st, [l1, l2]) == Run(next, [l2]);
    RunOne(next, l2);
  }

  /** Reading one line is taking that step. */
  lemma RunOne(st: ParserState, l: string)
    ensures Run(st, [l]) == Step(st, l)
  {
    assert [l][0] == l && [l][1..] == [];
  }

  /** A fatal line ends the parse with its error, whatever follows it. */
  lemma ErrorStopsRun(st: ParserState, a: seq<string>, raw: string, b: seq<string>)
    requires Run(st, a).Ok? && Step(Run(st, a).value, raw).Err?
    ensures Run(st, a + [raw] + b) == Err(Step(Run(st, a).value, raw).error)
  {
    RunAppend(st, a, [raw] + b);
    assert a + [raw] + b == a + ([raw] + b);
    assert ([raw] + b)[1..] == b;
  }

  /** A line that leaves the state as it is can be removed. */
  lemma SkipIdleLine(st: ParserState, a: seq<string>, raw: string, b: seq<string>)
    requires Run(st, a).Ok? ==> Step(Run(st, a).value, raw) == Ok(Run(st, a).value)
    ensures Run(st, a + [raw] + b) == Run(st, a + b)
  {
    RunAppend(st, a, [raw] + b);
    RunAppend(st, a, b);
    assert a + [raw] + b == a + ([raw] + b);
    assert ([raw] + b)[1..] == b;
  }

  /** A line holding only whitespace and a comment is ignored anywhere, inside a multi-line array
      too. */
  lemma CommentLineIgnored(st: ParserState, a: seq<string>, w: string, comment: string, b: seq<string>)
    requires AllWhitespace(w)
    ensures Run(st, a + [w + "#" + comment] + b) == Run(st, a + b)
  {
    var raw := w + "#" + comment;
    assert '"' !in w by {
      forall k | 0 <= k < |w| ensures w[k] != '"' { assert IsWhitespace(w[k]); }
    }
    CountAbsent(w, '"');
    assert raw[..|w|] == w;
    assert IsCommentStart(raw, |w|);
    assert forall j :: 0 <= j < |w| ==> raw[j] == w[j];
    CommentFreeAt(raw, |w|);
    TrimAllWhitespace(w);
    SkipIdleLine(st, a, raw, b);
  }

  // ----- `key = value` lines -----

  /** A key as it can be written on a `key = value` line. */
  predicate IsKey(key: string) {
    key != [] && Trimmed(key) && '=' !in key && '#' !in key && key[0] != '['
  }

  /** A value as it can be written after `=`. */
  predicate IsValue(value: string) {
    value != [] && Trimmed(value)
  }

  /** The line holds no comment: every `#` in it stands between quotes. */
  predicate NoComment(line: string) {
    CommentFree(line) == line
  }

  /** The line `key = value`. */
  function KeyValueLine(key: string, value: string): string {
    key + " = " + value
  }

  lemma KeyValueLineClean(key: string, value: string)
    requires IsKey(key) && IsValue(value) && NoComment(KeyValueLine(key, value))
    ensures Trim(CommentFree(key + " = " + value)) == key + " = " + value
  {
    var raw := key + " = " + value;
    assert raw[0] == key[0] && raw[|raw| - 1] == value[|value| - 1];
  }

  lemma KeyValueLineWithoutHash(key: string, value: string)
    requires '#' !in key && '#' !in value
    ensures NoComment(KeyValueLine(key, value))
  {
    var line := key + " = " + value;
    assert '#' !in line by {
      assert line == key + (" = " + value);
      assert '#' !in " = " + value;
    }
    CommentFreeWithoutHash(line);
  }

  /** A key without quotes, and a value whose every `#` is between quotes. */
  lemma {:induction false} KeyValueLineShielded(key: string, value: string)
    requires '#' !in key && '"' !in key && Shielded(value, '#') && Count(value, '"') % 2 == 0
    ensures NoComment(KeyValueLine(key, value))
  {
    var p := key + " = ";
    assert '#' !in p && '"' !in p;
    ShieldedWithout(p, '#');
    CountAbsent(p, '"');
    ShieldedConcat(p, value, '#');
    ShieldedNoComment(p + value);
  }

  lemma {:induction false} KeyValueLineSplit(key: string, value: string)
    requires IsKey(key) && IsValue(value)
    ensures IndexOf(key + " = " + value, '=') == Some(|key| + 1)
    ensures Trim((key + " = " + value)[..|key| + 1]) == key
    ensures Trim((key + " = " + value)[|key| + 2..]) == value
  {
    KeyValueLineEquals(key, value);
    var raw := key + " = " + value;
    assert raw[..|key| + 1] == key + " ";
    KeyTrim(key);
    assert raw[|key| + 2..] == " " + value;
    ValueTrim(value);
  }

  /** The first `=` of the line is the one after the key. */
  lemma {:induction false} KeyValueLineEquals(key: string, value: string)
    requires IsKey(key)
    ensures IndexOf(key + " = " + value, '=') == Some(|key| + 1)
  {
    var raw := key + " = " + value;
    var n := |key|;
    assert raw[n + 1] == '=';
    assert forall k :: 0 <= k < n + 1 ==> raw[k] != '=' by {
      forall k | 0 <= k < n + 1 ensures raw[k] != '=' {
        if k < n { assert raw[k] == key[k]; }
      }
    }
    IndexOfFirst(raw, '=', n + 1);
  }

  lemma KeyTrim(key: string)
    requires key != [] && Trimmed(key)
    ensures Trim(key + " ") == key
  {
    TrimPadded("", key, " ");
    assert "" + key + " " == key + " ";
  }

  lemma ValueTrim(value: string)
    requires value != [] && Trimmed(value)
    ensures Trim(" " + value) == value
  {
    TrimPadded(" ", value, "");
    assert " " + value + "" == " " + value;
  }

  /** Outside a multi-line array, `key = value` is read as the pair `key`, `value`. */
  lemma StepKeyValue(st: ParserState, key: string, value: string)
    requires !st.collecting && IsKey(key) && IsValue(value) && NoComment(KeyValueLine(key, value))
    ensures Step(st, KeyValueLine(key, value)) == KeyValue(st, key, value)
  {
    KeyValueLineClean(key, value);
    KeyValueLineSplit(key, value);
    var raw := key + " = " + value;
    assert !StartsWith(raw, '[');
  }

  /** A `depends_on` value that is not an array is fatal (src/lib.rs:469-471). */
  lemma DependsOnMustBeArray(st: ParserState, value: string)
    requires !st.collecting && IsValue(value) && !StartsWith(value, '[')
    requires NoComment(KeyValueLine("depends_on", value))
    ensures Step(st, KeyValueLine("depends_on", value)) == Err(NotAnArray)
  {
    StepKeyValue(st, "depends_on", value);
  }

  /** A `post_prompt` value that is not a quoted string is fatal (src/lib.rs:458-460). */
  lemma PostPromptMustBeString(st: ParserState, value: string)
    requires !st.collecting && IsValue(value) && NoComment(KeyValueLine("post_prompt", value))
    requires !(|value| >= 2 && StartsWith(value, '"') && EndsWith(value, '"'))
    ensures Step(st, KeyValueLine("post_prompt", value)) == Err(NotAString)
  {
    StepKeyValue(st, "post_prompt", value);
  }

  /** Any other key is ignored: its line can be removed (src/lib.rs:466-468). */
  lemma UnknownKeyIgnored(st: ParserState, a: seq<string>, key: string, value: string, b: seq<string>)
    requires IsKey(key) && IsValue(value) && NoComment(KeyValueLine(key, value))
    requires key != "post_prompt" && key != "depends_on"
    requires Run(st, a).Ok? ==> !Run(st, a).value.collecting
    ensures Run(st, a + [KeyValueLine(key, value)] + b) == Run(st, a + b)
  {
    if Run(st, a).Ok? {
      StepKeyValue(Run(st, a).value, key, value);
    }
    SkipIdleLine(st, a, KeyValueLine(key, value), b);
  }

  /** An empty section header is fatal (src/lib.rs:446-448). */
  lemma EmptySectionRejected(st: ParserState, w: string)
    requires !st.collecting && AllWhitespace(w) && '#' !in w
    ensures Step(st, "[" + w + "]") == Err(EmptySection)
  {
    var raw := "[" + w + "]";
    assert '#' !in raw;
    CommentFreeWithoutHash(raw);
    assert Trim(raw) == raw;
    assert raw[1..|raw| - 1] == w;
    TrimAllWhitespace(w);
  }

  // ----- post_prompt -----

  /** The line that sets `post_prompt` to `v`, with `v` written escaped. */
  function PostPromptLine(v: string): string {
    KeyValueLine("post_prompt", "\"" + Escaped(v) + "\"")
  }

  /** The line sets `post_prompt` to exactly `v`, stored unescaped, and changes nothing else
      (src/lib.rs:457-463). `v` holds no `"` or no `#`: the comment scan counts an escaped
      quote as a quote, so a `#` after one would start a comment. */
  lemma {:induction false} PostPromptStored(st: ParserState, v: string)
    requires !st.collecting && ('"' !in v || '#' !in v)
    ensures Step(st, PostPromptLine(v)) == Ok(st.(postPrompt := Some(v)))
  {
    PostPromptLineClean(v);
    QuotedPostPrompt(v);
    StepKeyValue(st, "post_prompt", "\"" + Escaped(v) + "\"");
  }

  /** The quoted, escaped text is a value, and the `post_prompt` branch reads `v` back from it. */
  lemma {:induction false} QuotedPostPrompt(v: string)
    ensures IsValue("\"" + Escaped(v) + "\"")
    ensures PostPromptValue("\"" + Escaped(v) + "\"") == Ok(v)
  {
    var value := "\"" + Escaped(v) + "\"";
    assert value[1..|value| - 1] == Escaped(v);
    UnescapeInvertsEscape(v);
  }

  lemma {:induction false} PostPromptLineClean(v: string)
    requires '"' !in v || '#' !in v
    ensures NoComment(PostPromptLine(v))
  {
    var e := Escaped(v);
    if '#' !in v {
      EscapedAvoids(v, '#');
      KeyValueLineWithoutHash("post_prompt", "\"" + e + "\"");
    } else {
      EscapedWithoutQuote(v);
      ShieldedQuoted(e, '#');
      KeyValueLineShielded("post_prompt", "\"" + e + "\"");
    }
  }

  /** Of two `post_prompt` lines the last wins. */
  lemma PostPromptLastWins(st: ParserState, v1: string, v2: string)
    requires !st.collecting && ('"' !in v1 || '#' !in v1) && ('"' !in v2 || '#' !in v2)
    ensures Run(st, [PostPromptLine(v1), PostPromptLine(v2)]) == Ok(st.(postPrompt := Some(v2)))
  {
    PostPromptStored(st, v1);
    PostPromptStored(st.(postPrompt := Some(v1)), v2);
    RunTwo(st, PostPromptLine(v1), PostPromptLine(v2));
  }

  // ----- depends_on -----

  /** Reader states outside an array: the buffer is empty when not collecting. Every state
      reachable from `Initial` is one (`StepKeepsWellFormed`). */
  predicate Idle(st: ParserState) {
    !st.collecting && st.buffer == []
  }

  /** Items that can be written between quotes without upsetting the comment and bracket scans,
      which count an escaped quote as a quote. */
  predicate PlainItem(x: string) {
    '"' !in x
  }

  predicate PlainGap(g: string) {
    IsGap(g) && '#' !in g
  }

  /** A one-line `depends_on` array. */
  function DependsOnLine(items: seq<string>, gaps: seq<string>): string
    requires |gaps| == |items| + 1
  {
    KeyValueLine("depends_on", "[" + Listed(items, gaps) + "]")
  }

  lemma {:induction false} ListedFacts(items: seq<string>, gaps: seq<string>)
    requires |gaps| == |items| + 1
    requires forall k :: 0 <= k < |items| ==> PlainItem(items[k])
    requires forall k :: 0 <= k < |gaps| ==> PlainGap(gaps[k])
    ensures Shielded(Listed(items, gaps), '#')
    ensures Count(Listed(items, gaps), '"') == 2 * |items|
  {
    CountAbsent(gaps[0], '"');
    ShieldedWithout(gaps[0], '#');
    if items != [] {
      var q := Quote(items[0]);
      var rest := Listed(items[1..], gaps[1..]);
      ListedFacts(items[1..], gaps[1..]);
      QuoteShielded(items[0], '#');
      ShieldedConcat(gaps[0], q, '#');
      CountConcat(gaps[0], q, '"');
      ShieldedConcat(gaps[0] + q, rest, '#');
      CountConcat(gaps[0] + q, rest, '"');
    }
  }

  /** A one-line array replaces the current section's list with exactly its items
      (src/lib.rs:472-485), and is fatal before any section header (src/lib.rs:482-484). */
  lemma {:induction false} DependsOnStored(st: ParserState, items: seq<string>, gaps: seq<string>)
    requires Idle(st) && |gaps| == |items| + 1
    requires forall k :: 0 <= k < |items| ==> PlainItem(items[k])
    requires forall k :: 0 <= k < |gaps| ==> PlainGap(gaps[k])
    ensures Step(st, DependsOnLine(items, gaps)) ==
      if st.current.None? then Err(OutsideSection)
      else Ok(st.(profiles := st.profiles[st.current.value := items]))
  {
    var value := "[" + Listed(items, gaps) + "]";
    ArrayValue(items, gaps);
    StepKeyValue(st, "depends_on", value);
  }

  /** The value of a one-line array: its line holds no comment, it closes, and it holds the
      items. */
  lemma {:induction false} ArrayValue(items: seq<string>, gaps: seq<string>)
    requires |gaps| == |items| + 1
    requires forall k :: 0 <= k < |items| ==> PlainItem(items[k])
    requires forall k :: 0 <= k < |gaps| ==> PlainGap(gaps[k])
    ensures var value := "[" + Listed(items, gaps) + "]";
      NoComment(KeyValueLine("depends_on", value))
      && ClosesOutsideQuotes(value) && ArrayItems(value) == Ok(items)
  {
    var body := Listed(items, gaps);
    var value := "[" + body + "]";
    ListedFacts(items, gaps);
    ArrayLineClean(body);
    CountConcat("[", body, '"');
    assert value[..|value| - 1] == "[" + body;
    EvenIsOutside(value, |value| - 1, |items|);
    assert value[|value| - 1] == ']';
    ArrayItemsRoundTrip(items, gaps, "");
    assert "[" + body + "]" + "" == value;
  }

  lemma {:induction false} ArrayLineClean(body: string)
    requires Shielded(body, '#') && Count(body, '"') % 2 == 0
    ensures NoComment(KeyValueLine("depends_on", "[" + body + "]"))
  {
    ShieldedFrame("[", body, "]", '#');
    CountConcat("[", body, '"');
    CountConcat("[" + body, "]", '"');
    KeyValueLineShielded("depends_on", "[" + body + "]");
  }

  lemma EvenIsOutside(s: string, j: nat, n: nat)
    requires j < |s| && Count(s[..j], '"') == 2 * n
    ensures OutsideQuotes(s, j)
  {
  }

  /** A later one-line `depends_on` for the same section replaces the earlier list. */
  lemma DependsOnReplaces(st: ParserState, items1: seq<string>, gaps1: seq<string>,
                          items2: seq<string>, gaps2: seq<string>)
    requires Idle(st) && st.current.Some?
    requires |gaps1| == |items1| + 1 && |gaps2| == |items2| + 1
    requires forall k :: 0 <= k < |items1| ==> PlainItem(items1[k])
    requires forall k :: 0 <= k < |gaps1| ==> PlainGap(gaps1[k])
    requires forall k :: 0 <= k < |items2| ==> PlainItem(items2[k])
    requires forall k :: 0 <= k < |gaps2| ==> PlainGap(gaps2[k])
    ensures Run(st, [DependsOnLine(items1, gaps1), DependsOnLine(items2, gaps2)])
      == Ok(st.(profiles := st.profiles[st.current.value := items2]))
  {
    var mid := st.(profiles := st.profiles[st.current.value := items1]);
    DependsOnStored(st, items1, gaps1);
    DependsOnStored(mid, items2, gaps2);
    RunTwo(st, DependsOnLine(items1, gaps1), DependsOnLine(items2, gaps2));
    Overwrite(st.profiles, st.current.value, items1, items2);
  }

  /** An escaped quote in a one-line array: the bracket scan counts it as a quote, so the only
      `]` seems to stand inside quotes and the array is taken to be still open
      (src/lib.rs:474, 487-488), although `parse_array_items` alone reads the item `a"b`. */
  lemma EscapedQuoteKeepsArrayOpen(st: ParserState, value: string)
    requires Idle(st) && value == "[\"a\\\"b\"]"
    ensures ArrayItems(value) == Ok(["a\"b"])
    ensures Step(st, KeyValueLine("depends_on", value)) == Ok(st.(collecting := true, buffer := value))
  {
    KeyValueLineWithoutHash("depends_on", value);
    StepKeyValue(st, "depends_on", value);
    EscapedQuoteUnclosed();
    EscapedQuoteItem();
  }

  lemma Overwrite(m: map<string, seq<string>>, k: string, a: seq<string>, b: seq<string>)
    ensures m[k := a][k := b] == m[k := b]
  {
  }

  // ----- multi-line arrays -----

  /** An item on a line of its own, indented and followed by a comma. */
  function ItemLine(x: string): string {
    "  " + Quote(x) + ","
  }

  /** One item per line. */
  function ItemLines(items: seq<string>): seq<string> {
    if items == [] then [] else [ItemLine(items[0])] + ItemLines(items[1..])
  }

  /** The array text those lines add to the buffer, each after a space. */
  function Collected(items: seq<string>): string {
    if items == [] then "" else " " + Quote(items[0]) + "," + Collected(items[1..])
  }

  /** The multi-line form of an array: `depends_on = [`, one line per item, and `]`. */
  function MultiLineArray(items: seq<string>): seq<string> {
    [KeyValueLine("depends_on", "[")] + ItemLines(items) + ["]"]
  }

  lemma {:induction false} CollectedFacts(items: seq<string>)
    requires forall k :: 0 <= k < |items| ==> PlainItem(items[k])
    ensures Shielded(Collected(items), ']')
    ensures Count(Collected(items), '"') == 2 * |items|
  {
    if items != [] {
      var q := Quote(items[0]);
      CollectedFacts(items[1..]);
      PieceFacts(items[0]);
      ShieldedConcat(" " + q + ",", Collected(items[1..]), ']');
      CountConcat(" " + q + ",", Collected(items[1..]), '"');
    }
  }

  /** What one item line adds to the buffer: a quoted item, every `]` in it shielded. */
  lemma {:induction false} PieceFacts(x: string)
    requires PlainItem(x)
    ensures Shielded(" " + Quote(x) + ",", ']') && Count(" " + Quote(x) + ",", '"') == 2
  {
    var q := Quote(x);
    QuoteShielded(x, ']');
    ShieldedFrame(" ", q, ",", ']');
    CountConcat(" " + q, ",", '"');
    CountConcat(" ", q, '"');
  }

  /** The buffer of an open array: its quotes pair up and every `]` in it is shielded. */
  predicate OpenBuffer(buf: string) {
    Shielded(buf, ']') && Count(buf, '"') % 2 == 0
  }

  lemma {:induction false} ItemsOfCollected(items: seq<string>)
    ensures ItemsAfterOpen(Collected(items) + " ]") == Ok(items)
  {
    if items == [] {
      assert Collected(items) + " ]" == " " + "]";
      ItemsSkipGap(" ", "]");
    } else {
      var t := Collected(items[1..]) + " ]";
      assert Collected(items) + " ]" == " " + Quote(items[0]) + "," + t;
      ItemOfCollected(items[0], t);
      ItemsOfCollected(items[1..]);
      assert [items[0]] + items[1..] == items;
    }
  }

  /** One item of the collected text, read back. */
  lemma ItemOfCollected(x: string, t: string)
    ensures ItemsAfterOpen(" " + Quote(x) + "," + t) == Cons(x, ItemsAfterOpen(t))
  {
    var rest := "," + t;
    var quoted := EscapeQuoted(x) + "\"" + rest;
    assert " " + Quote(x) + "," + t == " " + ("\"" + quoted);
    ItemsSkipGap(" ", "\"" + quoted);
    assert ("\"" + quoted)[1..] == quoted;
    QuotedItemOfEscaped(x, rest);
    ItemsSkipGap(",", t);
  }

  /** While collecting, each item line extends the buffer and nothing else. */
  lemma {:induction false} CollectItemLines(st: ParserState, items: seq<string>, rest: seq<string>)
    requires st.collecting && OpenBuffer(st.buffer)
    requires forall k :: 0 <= k < |items| ==> PlainItem(items[k])
    ensures Run(st, ItemLines(items) + rest) == Run(st.(buffer := st.buffer + Collected(items)), rest)
    decreases |items|
  {
    if items == [] {
      assert ItemLines(items) + rest == rest;
      assert st.buffer + Collected(items) == st.buffer;
    } else {
      var line, piece := ItemLine(items[0]), " " + Quote(items[0]) + ",";
      var lines, more := ItemLines(items[1..]), Collected(items[1..]);
      var next := st.(buffer := st.buffer + piece);
      CollectItemLine(st, items[0]);
      assert ItemLines(items) == [line] + lines;
      HeadTail(line, lines, rest);
      RunCons(st, line, lines + rest);
      assert forall k :: 0 <= k < |items[1..]| ==> PlainItem(items[1..][k]);
      CollectItemLines(next, items[1..], rest);
      assert Collected(items) == piece + more;
      Regroup(st.buffer, piece, more);
    }
  }

  /** While collecting, an item line adds the item to the buffer after a space. */
  lemma CollectItemLine(st: ParserState, x: string)
    requires st.collecting && OpenBuffer(st.buffer) && PlainItem(x)
    ensures Step(st, ItemLine(x)) == Ok(st.(buffer := st.buffer + (" " + Quote(x) + ",")))
    ensures OpenBuffer(st.buffer + (" " + Quote(x) + ","))
  {
    var q := Quote(x);
    var piece := " " + q + ",";
    ItemLineClean(x);
    var buf := st.buffer + " " + (q + ",");
    assert buf == st.buffer + piece;
    PieceFacts(x);
    ShieldedConcat(st.buffer, piece, ']');
    CountConcat(st.buffer, piece, '"');
    ShieldedNoClose(buf);
  }

  lemma ItemLineClean(x: string)
    requires PlainItem(x)
    ensures Trim(CommentFree(ItemLine(x))) == Quote(x) + ","
  {
    var q := Quote(x);
    var raw := ItemLine(x);
    QuoteShielded(x, '#');
    ShieldedFrame("  ", q, ",", '#');
    ShieldedNoComment(raw);
    TrimPadded("  ", q + ",", "");
    assert "  " + (q + ",") + "" == raw;
  }

  /** A multi-line array, trailing comma included, stores the same items as its one-line form
      (src/lib.rs:423-441). */
  lemma MultiLineArrayStored(st: ParserState, items: seq<string>)
    requires Idle(st)
    requires forall k :: 0 <= k < |items| ==> PlainItem(items[k])
    ensures Run(st, MultiLineArray(items)) ==
      if st.current.None? then Err(OutsideSection)
      else Ok(st.(profiles := st.profiles[st.current.value := items]))
  {
    var open := st.(collecting := true, buffer := "[");
    OpenArrayLine(st);
    HeadTail(KeyValueLine("depends_on", "["), ItemLines(items), ["]"]);
    CollectItemLines(open, items, ["]"]);
    var full := open.(buffer := "[" + Collected(items));
    CloseArrayLine(full, items, "]");
    RunOne(full, "]");
    if st.current.Some? {
      assert full.(profiles := full.profiles[st.current.value := items], collecting := false, buffer := "")
        == st.(profiles := st.profiles[st.current.value := items]);
    }
  }

  /** `depends_on = [` opens a multi-line array. */
  lemma OpenArrayLine(st: ParserState)
    requires Idle(st)
    ensures Step(st, KeyValueLine("depends_on", "[")) == Ok(st.(collecting := true, buffer := "["))
    ensures OpenBuffer("[")
  {
    KeyValueLineWithoutHash("depends_on", "[");
    StepKeyValue(st, "depends_on", "[");
    assert !ClosesOutsideQuotes("[");
    CountAbsent("[", '"');
  }

  /** The closing `]` line finishes the collected array. */
  lemma CloseArrayLine(st: ParserState, items: seq<string>, line: string)
    requires st.collecting && st.buffer == "[" + Collected(items) && line == "]"
    requires forall k :: 0 <= k < |items| ==> PlainItem(items[k])
    ensures Step(st, line) ==
      if st.current.None? then Err(OutsideSection)
      else Ok(st.(profiles := st.profiles[st.current.value := items], collecting := false, buffer := ""))
  {
    CollectedFacts(items);
    ItemsOfCollected(items);
    CloseArray(st, Collected(items), items, line);
  }

  lemma CloseArray(st: ParserState, c: string, items: seq<string>, line: string)
    requires st.collecting && st.buffer == "[" + c && line == "]"
    requires Count(c, '"') == 2 * |items| && ItemsAfterOpen(c + " ]") == Ok(items)
    ensures Step(st, line) ==
      if st.current.None? then Err(OutsideSection)
      else Ok(st.(profiles := st.profiles[st.current.value := items], collecting := false, buffer := ""))
  {
    var buf := st.buffer + " " + line;
    BareLine(line);
    ClosedBuffer(c, |items|, line);
    assert ArrayItems(buf) == Ok(items);
    assert Step(st, line) == Accumulate(st, buf);
    assert Accumulate(st, buf) == Finish(st, buf);
  }

  /** A line that is just `]` is read as it is. */
  lemma BareLine(line: string)
    requires line == "]"
    ensures Trim(CommentFree(line)) == line
  {
    CommentFreeWithoutHash(line);
  }

  /** The collected text, a space and the closing `]`: the array closes and its items are the
      collected ones. */
  lemma ClosedBuffer(c: string, n: nat, line: string)
    requires Count(c, '"') == 2 * n && line == "]"
    ensures ClosesOutsideQuotes("[" + c + " " + line)
    ensures ArrayItems("[" + c + " " + line) == ItemsAfterOpen(c + " ]")
  {
    var buf := "[" + c + " " + line;
    assert buf == "[" + (c + " ") + "]";
    Split("[" + (c + " "), "]");
    CountConcat("[", c + " ", '"');
    CountConcat(c, " ", '"');
    EvenIsOutside(buf, |buf| - 1, n);
    assert buf[|buf| - 1] == ']';
    assert buf == "[" + (c + " ]");
    assert buf[1..] == c + " ]";
  }

  lemma HeadTail<T>(x: T, ys: seq<T>, zs: seq<T>)
    ensures ([x] + ys + zs)[0] == x && ([x] + ys + zs)[1..] == ys + zs
    ensures [x] + ys + zs == [x] + (ys + zs)
  {
    assert [x] + ys + zs == [x] + (ys + zs);
  }

  lemma Regroup(a: string, b: string, c: string)
    ensures (a + b) + c == a + (b + c)
  {
  }

  /** A one-line array with the gaps the multi-line form leaves. */
  lemma MultiLineSameAsOneLine(st: ParserState, items: seq<string>, gaps: seq<string>)
    requires Idle(st) && |gaps| == |items| + 1
    requires forall k :: 0 <= k < |items| ==> PlainItem(items[k])
    requires forall k :: 0 <= k < |gaps| ==> PlainGap(gaps[k])
    ensures Run(st, MultiLineArray(items)) == Step(st, DependsOnLine(items, gaps))
  {
    MultiLineArrayStored(st, items);
    DependsOnStored(st, items, gaps);
  }

  /** An array whose `]` never comes leaves the profiles as they were: the reader is still
      collecting at the end of the text, and `Parse` drops what it collected. */
  lemma UnclosedArrayDropped(st: ParserState, items: seq<string>)
    requires Idle(st)
    requires forall k :: 0 <= k < |items| ==> PlainItem(items[k])
    ensures Run(st, [KeyValueLine("depends_on", "[")] + ItemLines(items)).Ok?
    ensures Run(st, [KeyValueLine("depends_on", "[")] + ItemLines(items)).value.profiles == st.profiles
  {
    OpenArrayLine(st);
    var open := st.(collecting := true, buffer := "[");
    HeadTail(KeyValueLine("depends_on", "["), ItemLines(items), []);
    assert ItemLines(items) + [] == ItemLines(items);
    CollectItemLines(open, items, []);
  }

  // ----- what every reachable state satisfies -----

  /** Names are non-empty and trimmed, and the buffer is empty outside an array. */
  predicate WellFormed(st: ParserState) {
    && (!st.collecting ==> st.buffer == [])
    && (st.current.Some? ==> st.current.value != [] && Trimmed(st.current.value))
    && (forall name | name in st.profiles :: name != [] && Trimmed(name))
  }

  lemma StepKeepsWellFormed(st: ParserState, raw: string)
    requires WellFormed(st) && Step(st, raw).Ok?
    ensures WellFormed(Step(st, raw).value)
  {
    var line := Trim(CommentFree(raw));
    if line != [] {
      if st.collecting {
        AccumulateKeepsWellFormed(st, st.buffer + " " + line);
      } else if !(StartsWith(line, '[') && EndsWith(line, ']')) {
        match IndexOf(line, '=')
        case None =>
        case Some(eq) => KeyValueKeepsWellFormed(st, Trim(line[..eq]), Trim(line[eq + 1..]));
      }
    }
  }

  lemma AccumulateKeepsWellFormed(st: ParserState, buf: string)
    requires WellFormed(st) && Accumulate(st, buf).Ok?
    ensures WellFormed(Accumulate(st, buf).value)
  {
  }

  lemma KeyValueKeepsWellFormed(st: ParserState, key: string, value: string)
    requires WellFormed(st) && KeyValue(st, key, value).Ok?
    ensures WellFormed(KeyValue(st, key, value).value)
  {
    if key == "depends_on" {
      AccumulateKeepsWellFormed(st, value);
    }
  }

  lemma {:induction false} RunKeepsWellFormed(st: ParserState, lines: seq<string>)
    requires WellFormed(st) && Run(st, lines).Ok?
    ensures WellFormed(Run(st, lines).value)
    decreases |lines|
  {
    if lines != [] {
      StepKeepsWellFormed(st, lines[0]);
      RunKeepsWellFormed(Step(st, lines[0]).value, lines[1..]);
    }
  }

  /** Every profile name read from a file is non-empty and has no surrounding whitespace
      (src/lib.rs:443-449). */
  lemma ParsedNamesTrimmed(input: string)
    requires Parse(input).Ok?
    ensures forall name | name in Parse(input).value.profiles :: name != [] && Trimmed(name)
  {
    RunKeepsWellFormed(Initial, Lines(input));
  }
}
