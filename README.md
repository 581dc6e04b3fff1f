# prompter: snippet composition, modelled in Dafny

prompter builds an LLM prompt out of Markdown snippets kept in a library directory.
A TOML-like configuration gives each *profile* an ordered list of dependencies. A dependency is
either a `.md` file in the library or the name of another profile.

This project models the core of `src/lib.rs` and proves properties about it:

- **Reading the configuration.** `parse_config_toml` and its char scanners `unescape`,
  `strip_comments`, `contains_closing_bracket_outside_quotes` and `parse_array_items` are in
  modules `Scan` and `ConfigParser`, over the text helpers in `Text`.
- **Resolving a profile.** `resolve_profile` is in `Resolver`. It flattens a profile, depth first,
  into the list of files it includes. Each file appears once. Cycles, unknown profiles and
  missing files are detected.
- **Validating.** `validate` is in `Validation`. It collects every missing file, unknown profile
  and cycle of a configuration.
- **Listing.** `list_profiles` is in `Listing`. It writes the profile names in ascending order.
- **Rendering.** `render_to_writer` is in `Renderer`. It writes the pre-prompt, a line feed, the
  system prefix, each resolved file after a line feed and before the separator, two line feeds,
  and the post-prompt.

The values shared by these modules are in `Profiles`: the configuration, the library as seen by
`Path::exists` and `fs::read`, `Path::join`, the `.md` test, the errors and their messages, and
the default prompts. The writer is the class `Output.Sink`. It models both the `Vec<u8>` that
never fails and the test writer `FailAfterN`, whose `fail_on`-th call to `write` fails.

The source's loops are methods with loop invariants. The source's `&mut` state and the writer
are fields of classes. Each method is proved equal to a specification function. The properties
are proved about those functions:

- every method and its specification function, e.g. `Scan.StripComments` and `Scan.CommentFree`;
- `Resolver.Resolution.ResolveProfile` and `Resolver.Resolve`;
- `Renderer.RenderToWriter` and `Renderer.Render`.

`HashMap` iteration order is unspecified in Rust. The model follows it this way:

- a method walks the keys in an order it picks with `:|`;
- a contract over the result holds for *some* order of the keys;
- lemmas show what does not depend on that order.

## Model

| member | source | states |
|---|---|---|
| Text.Trim | src/lib.rs:418 | `str::trim`: the result has no surrounding whitespace, and text that has none is returned as it is |
| Text.TrimSpec | src/lib.rs:418 | the input is the result with only whitespace before and after it |
| Text.TrimPadded | src/lib.rs:418 | trimming whitespace + non-empty trimmed text + whitespace gives back that text |
| Text.TrimAllWhitespace | src/lib.rs:418-421 | a line of only whitespace trims to the empty line the reader skips |
| Text.Lines | src/lib.rs:417 | `str::lines`: no line holds a line feed, and non-empty text has at least one line |
| Text.LinesRoundTrip | src/lib.rs:417 | for text without `\r`, joining the lines with `\n` gives back the text, less one final line feed |
| Text.FirstLine | src/lib.rs:417 | the first line is the text up to the first line feed, less a `\r` just before it, and the text after that line feed gives the remaining lines; without `\r` the first line is exactly the text before the line feed |
| Text.IndexOf | src/lib.rs:453 | `str::find` of a char: None only if the char is absent, otherwise the first position holding it |
| Text.LastIndexOf | src/lib.rs:631-633 | the last position holding a char, which `Path::extension` needs |
| Text.JoinCons | src/lib.rs:734 | `join("\n")` of two or more messages is the first, a line feed, and the join of the rest |
| Scan.Unescape | src/lib.rs:273-294 | the char loop of `unescape` computes `Unescaped` |
| Scan.UnescapedAtEscape | src/lib.rs:277-288 | a backslash and the char after it become that char's escape value |
| Scan.UnescapeKeepsPlainText | src/lib.rs:289-291 | text without a backslash comes back unchanged |
| Scan.UnescapePlainPrefix | src/lib.rs:289-291 | text before the first backslash is copied through |
| Scan.UnescapeSequence | src/lib.rs:279-287 | `\n`, `\t`, `\r`, `\"`, `\\` become their chars; any other char keeps its backslash |
| Scan.UnescapeTrailingBackslash | src/lib.rs:283 | a lone backslash at the end is kept |
| Scan.UnescapeCode | src/lib.rs:279-287 | each char's escaped form becomes that char again |
| Scan.UnescapeInvertsEscape | src/lib.rs:273-294 | unescaping an escaped string gives it back (round trip) |
| Scan.UnescapeQuoteBackslashExample | src/lib.rs:1056 | `\"\\c` unescapes to `"\c` |
| Scan.UnescapeCarriageReturnExample | src/lib.rs:1057 | `line1\rline2` unescapes to a real carriage return |
| Scan.CommentFree | src/lib.rs:499-514 | the result is a prefix of the line |
| Scan.CommentFreeSpec | src/lib.rs:499-514 | the cut is at the first `#` with an even number of `"` before it, or at the end if there is none |
| Scan.CommentFreeAt | src/lib.rs:499-514 | the inverse direction: a position that is the first comment start is where the line is cut |
| Scan.CommentFreeWithoutHash | src/lib.rs:508-510 | a line with no `#` is kept whole |
| Scan.StripComments | src/lib.rs:499-514 | the char loop of `strip_comments`, toggling on every `"`, computes `CommentFree` |
| Scan.CommentExample | src/lib.rs:1063-1064 | `ab#cd` becomes `ab` |
| Scan.QuotedCommentExample | src/lib.rs:1065-1066 | a `#` inside quotes is kept, the one after them starts the comment |
| Scan.ContainsClosingBracketOutsideQuotes | src/lib.rs:516-527 | true exactly when some `]` has an even number of `"` before it (both directions) |
| Scan.ClosingBracketExample | src/lib.rs:1067 | a `]` after the closing quote counts |
| Scan.NoClosingBracketExample | src/lib.rs:1068 | a `]` between quotes does not count |
| Scan.ArrayItems | src/lib.rs:529-572 | the only error is `Unterminated string in array` |
| Scan.ParseArrayItems | src/lib.rs:529-572 | the char loop of `parse_array_items`, with its `started`, `in_str` and `escaped` flags, computes `ArrayItems` |
| Scan.ArrayItemsSkipPreamble | src/lib.rs:538-543 | text before the first `[` is ignored |
| Scan.QuotedItemOfEscaped | src/lib.rs:550-558 | inside quotes a backslash takes the next char as it is, and the item ends at the next bare `"` |
| Scan.ItemsSkipGap | src/lib.rs:566-568 | text outside quotes other than `"` and `]` (commas, spaces) is ignored |
| Scan.ArrayItemsRoundTrip | src/lib.rs:529-572 | writing any items quoted and escaped, with any gaps, and reading them back gives the same items |
| Scan.ArrayItemsUnterminated | src/lib.rs:569-571 | an array whose last quote is never closed is rejected with `Unterminated string in array` |
| Scan.ArrayItemsExample | src/lib.rs:1073-1075 | `["a\"b", "c"]` gives `a"b` and `c` |
| Scan.EscapedQuoteUnclosed | src/lib.rs:515-526 | the bracket scan finds no `]` outside quotes in `["a\"b"]`, because it counts the escaped quote |
| Scan.EscapedQuoteItem | src/lib.rs:529-572 | item parsing honours the escape and reads `a"b` from `["a\"b"]` |
| Scan.ArrayItemsUnterminatedExample | src/lib.rs:1076-1077 | `["unterminated` is an error |
| Scan.ArrayItemsBackslashExample | src/lib.rs:1330-1332 | `["a\\"]` gives one item holding a single backslash |
| Profiles.JoinPathSpec | src/lib.rs:634 | `Path::join`: the joined path ends with the dependency, after `lib` and one `/` when `lib` lacks one; an absolute dependency stands alone |
| Profiles.JoinPathDistinct | src/lib.rs:634 | different dependencies of the same length give different paths |
| Profiles.CycleMessage | src/lib.rs:934 | the tag `Cycle detected: `, followed by the chain joined with ` -> ` |
| Profiles.MissingFileMessage | src/lib.rs:935-939 | the tag `Missing file: ` and the path, ending with ` (referenced by [<profile>])` |
| Profiles.ResolveMessage | src/lib.rs:931-940 | an unknown profile reads as its tag then the name; a cycle and a missing file read as their own messages |
| Profiles.UnknownDependencyMessage | src/lib.rs:712-714 | the tag `Unknown profile: ` and the dependency, ending with ` (referenced by [<profile>])` |
| Profiles.ResolveMessageKind | src/lib.rs:931-940 | each resolve error's message starts with its own tag and with neither of the other two, so the kind can be read back |
| Profiles.DependencyMessagesDistinct | src/lib.rs:704-714 | an unknown-dependency message never equals a missing-file message |
| Profiles.FileName | src/lib.rs:631-633 | the last `/` component: it holds no `/` and ends the token |
| Profiles.Extension | src/lib.rs:631-633 | `Path::extension`: the text after the last `.` of the file name, none when that dot is first; a trailing `/` or `/.` is not dropped as Rust drops it |
| Profiles.MarkdownByEnding | src/lib.rs:631-633 | the extension test with `eq_ignore_ascii_case("md")` holds exactly when the token ends in `.md` in any case, with that dot neither first nor after a `/` (a trailing `/` or `/.` is not dropped as Rust drops it) |
| Profiles.MarkdownExamples | src/lib.rs:631-633 | `a/b.md` and `GUIDE.MD` are files |
| Profiles.NotMarkdownExamples | src/lib.rs:631-633 | `child`, `.md` and `dir/.md` are profile names, not files |
| ConfigParser.ParseConfigToml | src/lib.rs:409-497 | the line loop of `parse_config_toml`, with `collecting`, `buffer`, `current`, `post_prompt` and the map, computes `Parse` |
| ConfigParser.ReadLine | src/lib.rs:417-490 | the loop body for one raw line computes `Step` |
| ConfigParser.ReadKeyValue | src/lib.rs:453-490 | the `key = value` branch computes `KeyValue` |
| ConfigParser.AccumulateArray | src/lib.rs:423-441 | the block run on an array's text computes `Accumulate`. Once a `]` outside quotes appears it parses the array and stores it under the current section; an invalid array and a missing section are errors |
| ConfigParser.PostPromptValue | src/lib.rs:457-462 | a value is accepted exactly when it is a quoted string, and the only error is `post_prompt must be a string` |
| ConfigParser.RunAppend | src/lib.rs:417-491 | reading `a + b` is reading `a`, then `b` from the state `a` leaves |
| ConfigParser.ErrorStopsRun | src/lib.rs:444-484 | the first fatal line ends the parse with its error, whatever follows |
| ConfigParser.CommentLineIgnored | src/lib.rs:418-421 | a line of whitespace and a comment can be removed anywhere, even inside a multi-line array |
| ConfigParser.StepKeyValue | src/lib.rs:453-455 | outside an array, a `key = value` line (key and value trimmed, key without `=`) is handled by the key-value branch with that key and value |
| ConfigParser.DependsOnMustBeArray | src/lib.rs:469-471 | a `depends_on` value not starting with `[` is fatal |
| ConfigParser.PostPromptMustBeString | src/lib.rs:458-460 | a `post_prompt` value that is not a quoted string is fatal |
| ConfigParser.UnknownKeyIgnored | src/lib.rs:466-468 | outside an array, a line with any other key can be removed without changing the result |
| ConfigParser.EmptySectionRejected | src/lib.rs:444-448 | `[ ]` is fatal |
| ConfigParser.PostPromptStored | src/lib.rs:457-463 | a `post_prompt` line stores exactly its unescaped text and changes nothing else, for every text without `"` and every text without `#` |
| ConfigParser.QuotedPostPrompt | src/lib.rs:458-462 | the `post_prompt` branch reads back exactly the text that was escaped and quoted |
| ConfigParser.PostPromptLastWins | src/lib.rs:462 | of two `post_prompt` lines the second wins, each text being free of `"` or of `#` |
| ConfigParser.DependsOnStored | src/lib.rs:472-485 | a one-line array of items without `"` (any `#` or `]` inside them allowed) stores exactly its items under the current section, and is fatal before any section header |
| ConfigParser.EscapedQuoteKeepsArrayOpen | src/lib.rs:472-489 | `depends_on = ["a\"b"]` is taken to be an unclosed array, since the bracket scan counts the escaped quote, although item parsing alone reads `a"b` |
| ConfigParser.DependsOnReplaces | src/lib.rs:485 | a later one-line `depends_on` for the same section replaces the earlier list (items without `"`) |
| ConfigParser.CollectItemLines | src/lib.rs:423-425 | while an array is open and its buffer has no `]` outside quotes, each item line of an item without `"` is added to the buffer after a space, and nothing else changes |
| ConfigParser.MultiLineArrayStored | src/lib.rs:423-441 | a multi-line array of items without `"`, trailing comma included, stores exactly its items |
| ConfigParser.MultiLineSameAsOneLine | src/lib.rs:423-489 | for items without `"`, the multi-line form of an array and its one-line form leave the same state |
| ConfigParser.UnclosedArrayDropped | src/lib.rs:487-496 | an array whose `]` never comes leaves the profiles as they were (items without `"`) |
| ConfigParser.RunKeepsWellFormed | src/lib.rs:444-449 | section names stay non-empty and trimmed, and the buffer stays empty outside an array (an invariant of every step) |
| ConfigParser.ParsedNamesTrimmed | src/lib.rs:444-449 | every profile name read from a file is non-empty and trimmed |
| Resolver.Resolve | src/lib.rs:612-648 | a successful call leaves the stack as it found it |
| Resolver.Resolution.ResolveProfile | src/lib.rs:612-648 | the source's recursive procedure on `seen_files`, `stack` and `out` fields: its result and new fields are those of `Resolve`, errors included |
| Resolver.UnvisitedShrinks | src/lib.rs:620-629 | a profile is pushed only when it is a key not on the stack, so the unvisited keys shrink (termination) |
| Resolver.ResolveGrows | src/lib.rs:612-648 | whatever the outcome, `seen_files` and `out` only grow, and the old `out` is a prefix of the new one |
| Resolver.ResolveRestoresStack | src/lib.rs:629-646 | on success the stack is what it was on entry |
| Resolver.ResolveKeepsDedup | src/lib.rs:639-641 | if `out` has no duplicates and lies in `seen_files`, that stays so |
| Resolver.ResolveAccounted | src/lib.rs:631-641 | every appended path is the joined path of a `.md` dependency of some profile, and it exists |
| Resolver.CycleIsGenuine | src/lib.rs:620-624 | a `Cycle` chain ends with a name that occurs earlier in it, and each name in it is a profile listing the next |
| Resolver.ResolveIsDedupedExpansion | src/lib.rs:612-648 | on success, the new part of `out` is the first occurrences, not yet seen, of the full depth-first file expansion in declared order |
| Resolver.MissingFileExample | src/lib.rs:1113-1127 | a missing `missing.md` of `root` is reported as `MissingFile(path, "root")` |
| Resolver.DedupExample | src/lib.rs:1129-1142 | `B` listing `A` and `a/b.md`, with `A` listing `a/b.md`, resolves to that file once |
| Resolver.NestedExample | src/lib.rs:1202-1220 | `root` listing `child`, `f/y.md`, `a/x.md`, with `child` listing `a/x.md`, resolves to `a/x.md`, `f/y.md` |
| Output.Put | src/lib.rs:1431-1439 | `write_all` on the test writer: an empty buffer makes no call; otherwise one call, which accepts the buffer unless it is the failing one |
| Output.PutAllReliable | src/lib.rs:1431-1439 | a writer past its failing call accepts every chunk in order |
| Output.PutAllPrefix | src/lib.rs:1431-1439 | whatever the writer, what it accepted is the chunks before the failing one |
| Output.Sink.WriteAll | src/lib.rs:1431-1439 | the writer's `write_all` changes its fields exactly as `Put` says |
| Keys.KeyOrder | src/lib.rs:697-719 | iterating the map visits every key exactly once |
| Keys.EnumerationsPermuted | src/lib.rs:697-719 | any two iteration orders are permutations of each other |
| Validation.CheckDeps | src/lib.rs:698-716 | the inner loop of the first pass collects `Gather(DepCheck(...), deps)`: a missing `.md` file or a token that is not a profile |
| Validation.CheckReferences | src/lib.rs:697-717 | the first pass collects every profile's reference problems, in iteration order |
| Validation.CheckCycles | src/lib.rs:719-729 | the second pass runs a fresh `resolve_profile` per key and keeps only `Cycle` errors |
| Validation.Validate | src/lib.rs:694-736 | for some key order the result is `Ok` with no messages, else `Err` of all messages joined by `\n`; and it is `Ok` exactly when every `.md` dependency exists, every other one is a profile, and no fresh resolution meets a cycle |
| Validation.GatherEmpty | src/lib.rs:731-735 | nothing is collected exactly when no element has a problem |
| Validation.ProblemsEmptyIff | src/lib.rs:694-736 | for every key order, no message is collected exactly when the configuration is valid |
| Validation.ProblemsOrderFree | src/lib.rs:697-729 | two key orders give the same messages, each as often |
| Validation.CycleExample | src/lib.rs:1173-1185 | `A` and `B` listing each other report `Cycle detected: A -> B -> A` and fail |
| Validation.MissingAndUnknownExample | src/lib.rs:1521-1550 | `root` listing `missing.md` and `unknown_profile` fails with both messages in that order, on two lines |
| Validation.ValidExample | src/lib.rs:1091-1103 | `p1` listing `a.md`, `p2` listing `p1` and `b.md`, with both files present, passes |
| Validation.UnknownExample | src/lib.rs:1104-1109 | `root` listing `nope` fails with `Unknown profile: nope (referenced by [root])` |
| Listing.BelowTotal | src/lib.rs:667 | `String`'s order is total on distinct names |
| Listing.BelowTransitive | src/lib.rs:667 | `String`'s order is transitive |
| Listing.Insert | src/lib.rs:667 | inserting a new name into an ascending list keeps it ascending and adds exactly that name |
| Listing.Sort | src/lib.rs:667 | `names.sort()`: the result is ascending and a permutation of the input |
| Listing.AscendingUnique | src/lib.rs:667 | two ascending lists with the same names are equal, so the sorted list is unique |
| Listing.ListProfiles | src/lib.rs:665-672 | for some key order, the writer's new state is that of writing each name, ascending, as the name and then `\n`, stopping at the first failure |
| Listing.ListingReliable | src/lib.rs:665-672 | on a writer that cannot fail the names are all written, ascending, the same for every key order |
| Listing.ListExample | src/lib.rs:1162-1170 | profiles `b` and `a` are listed as `a\nb\n` |
| Renderer.WriteError | src/lib.rs:947 | the tag `Write error: `, followed by exactly the writer's error |
| Renderer.ReadError | src/lib.rs:966 | the tag `Failed to read ` and the path, ending with `: ` and the read error |
| Renderer.RenderErrorsDistinct | src/lib.rs:931-966 | a write failure, a read failure and a resolve error never give the same message |
| Renderer.Chunk | src/lib.rs:962-967 | a text step yields that text; a file step yields the file's contents exactly when it can be read |
| Renderer.Render | src/lib.rs:919-989 | the specification of `render_to_writer` on a writer in a given state |
| Renderer.RenderToWriter | src/lib.rs:919-989 | the source's sequence of `write_all` calls leaves the writer exactly as `Render` says, with the same result |
| Renderer.WriteFiles | src/lib.rs:956-974 | the loop over the resolved files writes `\n`, the file's bytes and the separator for each, stopping at the first error |
| Renderer.RunReliable | src/lib.rs:943-986 | on a writer that cannot fail, with every file readable, the steps succeed and write their texts in order |
| Renderer.RunPrefix | src/lib.rs:943-986 | any writer receives a prefix of what a writer that never fails receives, and all of it when nothing fails |
| Renderer.RunFailure | src/lib.rs:943-986 | the only failures are `Write error: ...` or `Failed to read <path>: ...` for a file of the plan that cannot be read |
| Renderer.WrittenFiles | src/lib.rs:956-974 | the files write `\n` + contents + separator each, and the empty separator adds nothing |
| Renderer.ResolvedExist | src/lib.rs:631-641 | every file `render_to_writer` resolves exists |
| Renderer.RenderReliable | src/lib.rs:919-989 | on success the output is exactly: the pre-prompt (the argument, else the default), `\n`, the prefix, then `\n` + contents + separator per resolved file, `\n\n`, and the post-prompt (the argument, else the configuration's, else the default) |
| Renderer.RenderFailure | src/lib.rs:919-989 | a resolve error aborts before any write with its message; otherwise failures are write errors or reads of a resolved file; any writer gets a prefix of the full output |
| Renderer.FirstWriteFails | src/lib.rs:1465-1480 | when the first write fails, nothing is written and the error is a write error |
| Renderer.ThirdWriteFails | src/lib.rs:1446-1462 | when the third write fails, the pre-prompt and `\n` were written, and the error is a write error |
| Renderer.BasicRenderExample | src/lib.rs:1202-1238 | the nested profile with separator `\n--\n` renders as the default pre-prompt, `\n`, the prefix, `\nAX\n\n--\n`, `\nFY\n\n--\n`, `\n\n` and the default post-prompt |

## Left out

- The command line (`parse_args_from`, `Cli`, `Commands`, `AppMode`, src/lib.rs:30-253) is clap glue. Its one piece of logic, calling `unescape`, is modelled directly.
- Finding the configuration and library paths (`home_dir`, `config_path`, `library_dir` and the override helpers) reads `$HOME` and the working directory. The library root is a parameter `lib`.
- `format_system_prefix` depends on the clock, the operating system and terminal detection. It is the parameter `Host.prefix`.
- `std::fs` and `Path::exists` are the value `FileSystem`: the set of existing paths and the contents of the readable ones.
- The text of an OS read error is the parameter `Host.readFailure`. The text of a writer's error is `Sink.failure`.
- `init_scaffold` and the `run_*_stdout` wrappers are left out. The first writes files and sleeps; the wrappers only read a file and call the modelled functions.
- `src/update.rs`, `src/doctor.rs`, `src/completions.rs`, `src/main.rs` and `tests/cli.rs` are not part of this model. They do network, terminal and process I/O or dispatch only.
- Bytes are modelled as `char`s, with no UTF-8 encoding. File contents are strings, and `fs::read` of a file that exists may still fail, as with a directory.
- Paths are strings. `Path::join` is modelled, but not the component-wise path equality that `HashSet<PathBuf>` uses: `a//b.md` and `a/b.md` count as two files.
- Text.LinesRoundTrip: the text holds no `\r`. `str::lines` drops a `\r` before each line feed, so no join gives such text back.
- Profiles.IsMarkdown: a token ending in one or more `/`, or in `/.`, such as `x.md/` or `x.md/.`, is not a file in the model. Rust's `Path` ignores trailing separators and a trailing `.` component, so there its extension is `md`.
- Profiles.Extension: for a token ending in `/` or `/.` there is no extension in the model, where Rust finds `md` in `x.md/.`, for the reason given under `IsMarkdown`.
- Profiles.MarkdownByEnding: does not cover a token ending in `/` or `/.`, for the reason given under `IsMarkdown`.
- ConfigParser.DependsOnStored: items hold no `"`. The comment scan (src/lib.rs:418, 499-513) and the bracket scan (src/lib.rs:474, 515-526) toggle on every `"`, escaped or not, while `parse_array_items` honours `\"`. So `depends_on = ["a\"b"]` stays open (`EscapedQuoteKeepsArrayOpen`), and after an item holding `\"` both scans misjudge which chars stand inside quotes. A `#` or `]` inside an item is covered.
- ConfigParser.DependsOnReplaces: items hold no `"`, for the reason given under `DependsOnStored`.
- ConfigParser.CollectItemLines: items hold no `"`, for the reason given under `DependsOnStored`.
- ConfigParser.MultiLineArrayStored: items hold no `"`, for the reason given under `DependsOnStored`.
- ConfigParser.MultiLineSameAsOneLine: items hold no `"`, for the reason given under `DependsOnStored`.
- ConfigParser.UnclosedArrayDropped: items hold no `"`, for the reason given under `DependsOnStored`.
- ConfigParser.PostPromptStored: the text holds no `"` or no `#`. After an escaped `\"` the comment scan thinks it is outside quotes, so a later `#` starts a comment and cuts the value short.
- ConfigParser.PostPromptLastWins: each text holds no `"` or no `#`, for the reason given under `PostPromptStored`.
- `HashMap` iteration order is not modelled. Every contract that depends on it holds for some enumeration of the keys, and order-free statements are proved separately: `ProblemsOrderFree` and `ListingReliable`.
- Validation.Validate: says for which key order the messages come, and `ProblemsOrderFree` shows that the order changes only their order. The exact message order of a given run is not determined.
- The comment at src/lib.rs:1458, in the test at src/lib.rs:1446-1462, says the third write is the separator. It is in fact the system prefix: the pre-prompt is write 1 and the line feed is write 2. `Renderer.ThirdWriteFails` follows the code.
- The comments at src/lib.rs:949 and src/lib.rs:958 say "two newlines", but the code writes one. The model follows the code.
- Listing.Sort: `names.sort()` is modelled by insertion sort as a function. That is enough, since the sorted list is unique (`AscendingUnique`), and the in-place algorithm is not modelled.

## Findings

| source | as written | input that shows it | evidently intended | confidence | as-written member | corrected member |
|---|---|---|---|---|---|---|
| src/lib.rs:458-461 | the guard checks only that the value starts and ends with `"`, then slices `value[1..len - 1]` | the line `post_prompt = "`: the value is the single char `"`, which passes the guard, and `value[1..0]` panics | reject it with `post_prompt must be a string`, as for any other value that is not a quoted string | high; not executed | ConfigParser.PostPromptLoneQuotePanics | ConfigParser.PostPromptCorrectionAgrees |

`ConfigParser.PostPromptValueAsWritten` is the branch as written, and `PostPromptLoneQuotePanics`
shows the panic. `ConfigParser.PostPromptValue` asks also for two characters, and the parser uses
it. `PostPromptCorrectionAgrees` proves that it agrees with the source on every other value.
