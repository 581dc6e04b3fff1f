/** The values prompter works on: the parsed configuration, the library on disk as seen through
    `Path::exists` and `fs::read`, the `.md` test on dependency tokens, `Path::join`, resolve
    errors and the messages made from them, and the default prompts (src/lib.rs). */
module Profiles {
  import opened Wrappers
  import opened Text

  type Path = string

  /** `Config`: each profile's ordered dependency tokens, and the optional `post_prompt`. */
  datatype Config = Config(profiles: map<string, seq<string>>, postPrompt: Option<string>)

  /** The library as the program observes it: the paths that exist, and the contents of those
      that can be read. A path may exist and still not be readable (a directory, say). */
  datatype FileSystem = FileSystem(present: set<Path>, contents: map<Path, string>) {
    predicate Exists(p: Path) {
      p in present
    }

    function Read(p: Path): Option<string> {
      if p in contents then Some(contents[p]) else None
    }
  }

  /** `Path::join`: an absolute `dep` replaces `lib`; otherwise `dep` is appended after a `/`,
      which is added only when `lib` is non-empty and does not already end with one. */
  function JoinPath(lib: Path, dep: string): Path {
    if StartsWith(dep, '/') then dep
    else if lib == [] || EndsWith(lib, '/') then lib + dep
    else lib + "/" + dep
  }

  /** The joined path ends with `dep`, and what stands before it is `lib`, with a `/` between
      them only when `lib` lacks one; an absolute `dep` stands alone. */
  lemma JoinPathSpec(lib: Path, dep: string)
    ensures var p := JoinPath(lib, dep);
      |dep| <= |p| && p[|p| - |dep|..] == dep
      && (StartsWith(dep, '/') ==> p == dep)
      && (!StartsWith(dep, '/') ==>
            p[..|p| - |dep|] == if lib == [] || EndsWith(lib, '/') then lib else lib + "/")
  {
  }

  /** Two different deps of the same length join to different paths. */
  lemma JoinPathDistinct(lib: Path, a: string, b: string)
    requires |a| == |b| && a != b
    ensures JoinPath(lib, a) != JoinPath(lib, b)
  {
    JoinPathSpec(lib, a);
    JoinPathSpec(lib, b);
  }

  /** The last `/`-separated component of a token. */
  function FileName(tok: string): (name: string)
    ensures '/' !in name
    ensures |name| <= |tok| && name == tok[|tok| - |name|..]
    ensures |name| < |tok| ==> tok[|tok| - |name| - 1] == '/'
  {
    match LastIndexOf(tok, '/')
    case None => tok
    case Some(k) => tok[k + 1..]
  }

  /** `Path::extension` of a file name: the text after its last `.`, when that dot is not the
      name's first character. */
  function Extension(name: string): (e: Option<string>)
    ensures e.Some? ==> '.' !in e.value && |e.value| < |name| - 1 && name[|name| - |e.value|..] == e.value
  {
    match LastIndexOf(name, '.')
    case None => None
    case Some(k) => if k == 0 then None else Some(name[k + 1..])
  }

  /** A dependency token names a file, not a profile: its extension is `md` in any ASCII case. */
  predicate IsMarkdown(tok: string) {
    var e := Extension(FileName(tok));
    e.Some? && EqualsIgnoreAsciiCase(e.value, "md")
  }

  /** The token ends in `.md` (any ASCII case), and that dot is neither its first character nor
      right after a `/`. */
  predicate EndsInMd(tok: string) {
    |tok| >= 4 && tok[|tok| - 3] == '.' && tok[|tok| - 4] != '/'
    && AsciiLower(tok[|tok| - 2]) == 'm' && AsciiLower(tok[|tok| - 1]) == 'd'
  }

  lemma MarkdownEndsInMd(tok: string)
    requires IsMarkdown(tok)
    ensures EndsInMd(tok)
  {
    var name := FileName(tok);
    var k := LastIndexOf(name, '.').value;
    assert Extension(name) == Some(name[k + 1..]);
    assert k == |name| - 3 && k > 0;
    assert name[k - 1] != '/';
    assert AsciiLower(name[k + 1]) == 'm' && AsciiLower(name[k + 2]) == 'd';
    var off := |tok| - |name|;
    assert tok[off + k - 1] == name[k - 1] && tok[off + k] == name[k];
    assert tok[off + k + 1] == name[k + 1] && tok[off + k + 2] == name[k + 2];
  }

  lemma FileNameOfEndsInMd(tok: string)
    requires EndsInMd(tok)
    ensures |FileName(tok)| >= 4
    ensures FileName(tok)[|FileName(tok)| - 3..] == tok[|tok| - 3..]
  {
    var n := |tok|;
    assert tok[n - 1] != '/' && tok[n - 2] != '/';
  }

  lemma ExtensionOfDotTwo(name: string)
    requires |name| > 3
    requires name[|name| - 3] == '.' && name[|name| - 2] != '.' && name[|name| - 1] != '.'
    ensures Extension(name) == Some(name[|name| - 2..])
  {
    assert name[|name| - 3] in name;
  }

  lemma EndsInMdMarkdown(tok: string)
    requires EndsInMd(tok)
    ensures IsMarkdown(tok)
  {
    var n := |tok|;
    var name := FileName(tok);
    var m := |name|;
    FileNameOfEndsInMd(tok);
    assert name[m - 3] == '.' && name[m - 2] == tok[n - 2] && name[m - 1] == tok[n - 1];
    ExtensionOfDotTwo(name);
  }

  /** The `.md` test read off the end of the token. */
  lemma MarkdownByEnding(tok: string)
    ensures IsMarkdown(tok) <==> EndsInMd(tok)
  {
    if IsMarkdown(tok) {
      MarkdownEndsInMd(tok);
    }
    if EndsInMd(tok) {
      EndsInMdMarkdown(tok);
    }
  }

  lemma MarkdownExamples(a: string, b: string)
    requires a == "a/b.md" && b == "GUIDE.MD"
    ensures IsMarkdown(a) && IsMarkdown(b)
  {
    assert EndsInMd(a) && EndsInMd(b);
    EndsInMdMarkdown(a);
    EndsInMdMarkdown(b);
  }

  lemma NotMarkdownExamples(a: string, b: string, c: string)
    requires a == "child" && b == ".md" && c == "dir/.md"
    ensures !IsMarkdown(a) && !IsMarkdown(b) && !IsMarkdown(c)
  {
    assert !EndsInMd(a) && !EndsInMd(b) && !EndsInMd(c);
    MarkdownByEnding(a);
    MarkdownByEnding(b);
    MarkdownByEnding(c);
  }

  /** `ResolveError`. */
  datatype ResolveError =
    | UnknownProfile(name: string)
    | Cycle(chain: seq<string>)
    | MissingFile(path: Path, referencedBy: string)

  /** How a cycle is reported: the tag `Cycle detected: `, then the chain joined by ` -> `. */
  function CycleMessage(chain: seq<string>): (m: string)
    ensures CycleTag <= m && m[|CycleTag|..] == Join(chain, " -> ")
  {
    CycleTag + Join(chain, " -> ")
  }

  /** How a missing file is reported: the tag `Missing file: `, then the path, then the
      profile that lists it. */
  function MissingFileMessage(path: Path, profile: string): (m: string)
    ensures MissingTag + path <= m
    ensures EndsWithText(m, " (referenced by [" + profile + "])")
  {
    MissingTag + path + " (referenced by [" + profile + "])"
  }

  /** How `render_to_writer` reports a resolve error. */
  function ResolveMessage(e: ResolveError): (m: string)
    ensures e.UnknownProfile? ==> UnknownTag <= m && m[|UnknownTag|..] == e.name
    ensures e.Cycle? ==> m == CycleMessage(e.chain)
    ensures e.MissingFile? ==> m == MissingFileMessage(e.path, e.referencedBy)
  {
    match e
    case UnknownProfile(p) => UnknownTag + p
    case Cycle(c) => CycleMessage(c)
    case MissingFile(path, prof) => MissingFileMessage(path, prof)
  }

  /** How `validate` reports a dependency that is neither a file nor a profile. */
  function UnknownDependencyMessage(dep: string, profile: string): (m: string)
    ensures UnknownTag + dep <= m
    ensures EndsWithText(m, " (referenced by [" + profile + "])")
  {
    UnknownTag + dep + " (referenced by [" + profile + "])"
  }

  const UnknownTag: string := "Unknown profile: "
  const CycleTag: string := "Cycle detected: "
  const MissingTag: string := "Missing file: "

  predicate EndsWithText(s: string, t: string) {
    |t| <= |s| && s[|s| - |t|..] == t
  }

  /** The kind of a resolve error can be told from its message, as the tests do by the
      words they look for: each message carries its own tag and none of the other two. */
  lemma ResolveMessageKind(e: ResolveError)
    ensures UnknownTag <= ResolveMessage(e) <==> e.UnknownProfile?
    ensures CycleTag <= ResolveMessage(e) <==> e.Cycle?
    ensures MissingTag <= ResolveMessage(e) <==> e.MissingFile?
  {
    var m := ResolveMessage(e);
    assert UnknownTag[0] == 'U' && CycleTag[0] == 'C' && MissingTag[0] == 'M';
    if e.UnknownProfile? {
      assert m[0] == 'U';
    } else if e.Cycle? {
      assert m[0] == 'C';
    } else {
      assert m[0] == 'M';
    }
  }

  /** An unknown dependency and a missing file are never reported by the same message. */
  lemma DependencyMessagesDistinct(dep: string, profile: string, path: Path, owner: string)
    ensures UnknownDependencyMessage(dep, profile) != MissingFileMessage(path, owner)
  {
    assert UnknownDependencyMessage(dep, profile)[0] == 'U';
    assert MissingFileMessage(path, owner)[0] == 'M';
  }

  /** `default_pre_prompt`. */
  const DefaultPrePrompt: string :=
    "You are an LLM coding agent. Here are invariants that you must adhere to. Please respond with 'Got it' when you have studied these and understand them. At that point, the operator will give you further instructions. You are *not* to do anything to the contents of this directory until you have been explicitly asked to, by the operator.\n\n"

  /** `default_post_prompt`. */
  const DefaultPostPrompt: string :=
    "Now, read the @AGENTS.md and @CLAUDE.md files in this directory, if they exist."
}
