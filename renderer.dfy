/** `render_to_writer` (src/lib.rs:919-989): resolve the profile from scratch, then write the
    pre-prompt, a line feed, the system prefix, each file (a line feed, its contents, the
    separator when there is one) and finally two line feeds and the post-prompt, stopping at
    the first failed write or read. The writes are a plan of steps (`Plan`), and `Run`
    performs a plan against a writer; the method is proved to do exactly what `Run` does. */
module Renderer {
  import opened Wrappers
  import opened Profiles
  import opened Resolver
  import opened Output

  /** The arguments of `render_to_writer` after the writer. */
  datatype Request = Request(profile: string, separator: Option<string>, pre: Option<string>, post: Option<string>)

  /** What the model takes from the host: the text `format_system_prefix` builds from the date
      and the operating system, and the text of the I/O error a failed `fs::read` reports. */
  datatype Host = Host(prefix: string, readFailure: string)

  /** One write of the plan: a fixed text, or the contents of a file, read just before. */
  datatype Step = Text(text: string) | Contents(path: Path)

  /** How a failed `write_all` is reported: the tag `Write error: `, then the writer's error. */
  function WriteError(failure: string): (m: string)
    ensures WriteTag <= m && m[|WriteTag|..] == failure
  {
    WriteTag + failure
  }

  /** How a failed `fs::read` is reported: the tag `Failed to read `, the path, and the error. */
  function ReadError(path: Path, failure: string): (m: string)
    ensures ReadTag + path <= m && EndsWithText(m, ": " + failure)
  {
    ReadTag + path + ": " + failure
  }

  const WriteTag: string := "Write error: "
  const ReadTag: string := "Failed to read "

  /** A write failure, a read failure and a resolve error never share a message, so the
      caller can tell at which stage rendering stopped. */
  lemma RenderErrorsDistinct(f: string, path: Path, g: string, e: ResolveError)
    ensures WriteError(f) != ReadError(path, g)
    ensures WriteError(f) != ResolveMessage(e)
    ensures ReadError(path, g) != ResolveMessage(e)
  {
    ResolveMessageKind(e);
    var r := ResolveMessage(e);
    assert WriteError(f)[0] == 'W' && ReadError(path, g)[0] == 'F';
    assert r[0] == 'U' || r[0] == 'C' || r[0] == 'M' by {
      assert UnknownTag <= r || CycleTag <= r || MissingTag <= r;
    }
  }

  /** The pre-prompt: the argument, else `default_pre_prompt`. */
  function PreText(req: Request): string {
    req.pre.GetOr(DefaultPrePrompt)
  }

  /** The post-prompt: the argument, else the configuration's `post_prompt`, else
      `default_post_prompt`. */
  function PostText(cfg: Config, req: Request): string {
    if req.post.Some? then req.post.value else cfg.postPrompt.GetOr(DefaultPostPrompt)
  }

  /** The steps for one file. */
  function FileStep(file: Path, sep: string): seq<Step> {
    [Text("\n"), Contents(file)] + (if sep == [] then [] else [Text(sep)])
  }

  function FileSteps(files: seq<Path>, sep: string): seq<Step>
    decreases |files|
  {
    if files == [] then [] else FileStep(files[0], sep) + FileSteps(files[1..], sep)
  }

  /** The closing steps. */
  function Closing(post: string): seq<Step> {
    [Text("\n\n"), Text(post)]
  }

  /** The pre-prompt, a line feed and the system prefix. */
  function Opening(host: Host, req: Request): seq<Step> {
    [Text(PreText(req)), Text("\n"), Text(host.prefix)]
  }

  /** Everything written once `files` are resolved. */
  function Plan(cfg: Config, host: Host, req: Request, files: seq<Path>): seq<Step> {
    Opening(host, req) + FileSteps(files, req.separator.GetOr("")) + Closing(PostText(cfg, req))
  }

  /** What one step hands to `write_all`, or `None` when its file cannot be read. */
  function Chunk(fs: FileSystem, step: Step): (c: Option<string>)
    ensures step.Text? ==> c == Some(step.text)
    ensures step.Contents? ==> (c.Some? <==> step.path in fs.contents)
  {
    match step
    case Text(t) => Some(t)
    case Contents(p) => fs.Read(p)
  }

  /** Performing `steps` in turn on a writer in state `s`. */
  function Run(s: Stream, failOn: nat, failure: string, fs: FileSystem, host: Host, steps: seq<Step>): Emitted
    decreases |steps|
  {
    if steps == [] then Emitted(Pass, s)
    else
      var chunk := Chunk(fs, steps[0]);
      if chunk.None? then Emitted(Fail(ReadError(steps[0].path, host.readFailure)), s)
      else
        var e := Put(s, failOn, failure, chunk.value);
        if e.outcome.Fail? then Emitted(Fail(WriteError(failure)), e.stream)
        else Run(e.stream, failOn, failure, fs, host, steps[1..])
  }

  /** `render_to_writer` on a writer in state `s`. */
  function Render(cfg: Config, lib: Path, fs: FileSystem, host: Host, req: Request, s: Stream, failOn: nat, failure: string): Emitted {
    var w := Resolve(cfg, lib, fs, req.profile, Empty);
    if w.outcome.Fail? then Emitted(Fail(ResolveMessage(w.outcome.error)), s)
    else Run(s, failOn, failure, fs, host, Plan(cfg, host, req, w.state.out))
  }

  /** Once the profile resolves, rendering is running the plan. */
  lemma RenderRuns(cfg: Config, lib: Path, fs: FileSystem, host: Host, req: Request, s: Stream, failOn: nat, failure: string)
    requires Resolve(cfg, lib, fs, req.profile, Empty).outcome.Pass?
    ensures Render(cfg, lib, fs, host, req, s, failOn, failure)
      == Run(s, failOn, failure, fs, host, Plan(cfg, host, req, Resolve(cfg, lib, fs, req.profile, Empty).state.out))
  {
  }

  // ----- the method -------------------------------------------------------------------------

  lemma RunStep(s: Stream, failOn: nat, failure: string, fs: FileSystem, host: Host, step: Step, more: seq<Step>)
    ensures Run(s, failOn, failure, fs, host, [step] + more) ==
      var chunk := Chunk(fs, step);
      if chunk.None? then Emitted(Fail(ReadError(step.path, host.readFailure)), s)
      else
        var e := Put(s, failOn, failure, chunk.value);
        if e.outcome.Fail? then Emitted(Fail(WriteError(failure)), e.stream)
        else Run(e.stream, failOn, failure, fs, host, more)
  {
    assert ([step] + more)[0] == step && ([step] + more)[1..] == more;
  }

  /** Performing `a` and then `b` is performing `a + b`. */
  lemma {:induction false} RunThen(s: Stream, failOn: nat, failure: string, fs: FileSystem, host: Host, a: seq<Step>, b: seq<Step>)
    ensures Run(s, failOn, failure, fs, host, a + b) ==
      var e := Run(s, failOn, failure, fs, host, a);
      if e.outcome.Fail? then e else Run(e.stream, failOn, failure, fs, host, b)
    decreases |a|
  {
    if a == [] {
      assert a + b == b;
    } else {
      assert (a + b)[0] == a[0] && (a + b)[1..] == a[1..] + b;
      var chunk := Chunk(fs, a[0]);
      if chunk.Some? {
        var e := Put(s, failOn, failure, chunk.value);
        if e.outcome.Pass? {
          RunThen(e.stream, failOn, failure, fs, host, a[1..], b);
        }
      }
    }
  }

  lemma PlanParts(cfg: Config, host: Host, req: Request, files: seq<Path>)
    ensures Plan(cfg, host, req, files) == Opening(host, req) + (FileSteps(files, req.separator.GetOr("")) + Closing(PostText(cfg, req)))
    ensures Opening(host, req) == [Text(PreText(req))] + ([Text("\n")] + [Text(host.prefix)])
    ensures Closing(PostText(cfg, req)) == [Text("\n\n")] + [Text(PostText(cfg, req))]
  {
  }

  lemma FileStepsShape(files: seq<Path>, sep: string)
    requires files != []
    ensures FileSteps(files, sep)
      == [Text("\n")] + ([Contents(files[0])] + ((if sep == [] then [] else [Text(sep)]) + FileSteps(files[1..], sep)))
  {
  }

  /** A single text written. */
  lemma RunText(s: Stream, failOn: nat, failure: string, fs: FileSystem, host: Host, t: string)
    ensures Run(s, failOn, failure, fs, host, [Text(t)]) ==
      var e := Put(s, failOn, failure, t);
      if e.outcome.Fail? then Emitted(Fail(WriteError(failure)), e.stream) else e
  {
    RunStep(s, failOn, failure, fs, host, Text(t), []);
    assert [Text(t)] + [] == [Text(t)];
  }

  /** The loop over the resolved files. */
  method WriteFiles(fs: FileSystem, host: Host, files: seq<Path>, sep: string, w: Sink) returns (r: Outcome<string>)
    modifies w
    ensures Emitted(r, w.State()) == Run(old(w.State()), w.failOn, w.failure, fs, host, FileSteps(files, sep))
  {
    for i := 0 to |files|
      invariant Run(old(w.State()), w.failOn, w.failure, fs, host, FileSteps(files, sep))
        == Run(w.State(), w.failOn, w.failure, fs, host, FileSteps(files[i..], sep))
    {
      var file := files[i];
      assert files[i..][0] == file && files[i..][1..] == files[i + 1..];
      var after := FileSteps(files[i + 1..], sep);
      var seps := if sep == [] then [] else [Text(sep)];
      FileStepsShape(files[i..], sep);
      RunStep(w.State(), w.failOn, w.failure, fs, host, Text("\n"), [Contents(file)] + (seps + after));
      var out := w.WriteAll("\n");
      if out.Fail? {
        return Fail(WriteError(w.failure));
      }
      RunStep(w.State(), w.failOn, w.failure, fs, host, Contents(file), seps + after);
      var bytes := fs.Read(file);
      if bytes.None? {
        return Fail(ReadError(file, host.readFailure));
      }
      out := w.WriteAll(bytes.value);
      if out.Fail? {
        return Fail(WriteError(w.failure));
      }
      if sep != [] {
        RunStep(w.State(), w.failOn, w.failure, fs, host, Text(sep), after);
        out := w.WriteAll(sep);
        if out.Fail? {
          return Fail(WriteError(w.failure));
        }
      } else {
        assert seps + after == after;
      }
    }
    assert files[|files|..] == [];
    return Pass;
  }

  method RenderToWriter(cfg: Config, lib: Path, fs: FileSystem, host: Host, req: Request, w: Sink) returns (r: Outcome<string>)
    modifies w
    ensures Emitted(r, w.State()) == Render(cfg, lib, fs, host, req, old(w.State()), w.failOn, w.failure)
  {
    var resolution := new Resolution();
    assert resolution.Snapshot() == Empty;
    var res := resolution.ResolveProfile(req.profile, cfg, lib, fs);
    if res.Fail? {
      return Fail(ResolveMessage(res.error));
    }
    var files := resolution.out;
    var sep := req.separator.GetOr("");
    var pre := PreText(req);
    var post := PostText(cfg, req);
    ghost var start := w.State();
    ghost var body := FileSteps(files, sep) + Closing(post);
    PlanParts(cfg, host, req, files);
    RunStep(w.State(), w.failOn, w.failure, fs, host, Text(pre), [Text("\n")] + [Text(host.prefix)]);
    RunThen(w.State(), w.failOn, w.failure, fs, host, Opening(host, req), body);
    var out := w.WriteAll(pre);
    if out.Fail? {
      return Fail(WriteError(w.failure));
    }
    RunStep(w.State(), w.failOn, w.failure, fs, host, Text("\n"), [Text(host.prefix)]);
    out := w.WriteAll("\n");
    if out.Fail? {
      return Fail(WriteError(w.failure));
    }
    RunText(w.State(), w.failOn, w.failure, fs, host, host.prefix);
    out := w.WriteAll(host.prefix);
    if out.Fail? {
      return Fail(WriteError(w.failure));
    }
    assert Render(cfg, lib, fs, host, req, start, w.failOn, w.failure) == Run(w.State(), w.failOn, w.failure, fs, host, body);
    RunThen(w.State(), w.failOn, w.failure, fs, host, FileSteps(files, sep), Closing(post));
    out := WriteFiles(fs, host, files, sep, w);
    if out.Fail? {
      return out;
    }
    RunStep(w.State(), w.failOn, w.failure, fs, host, Text("\n\n"), [Text(post)]);
    out := w.WriteAll("\n\n");
    if out.Fail? {
      return Fail(WriteError(w.failure));
    }
    RunText(w.State(), w.failOn, w.failure, fs, host, post);
    out := w.WriteAll(post);
    if out.Fail? {
      return Fail(WriteError(w.failure));
    }
    return Pass;
  }

  // ----- what is written ----------------------------------------------------------------------

  /** Everything `steps` hand to the writer when every read succeeds. */
  function Written(fs: FileSystem, steps: seq<Step>): string
    decreases |steps|
  {
    if steps == [] then "" else Chunk(fs, steps[0]).GetOr("") + Written(fs, steps[1..])
  }

  /** Every file `steps` copy can be read. */
  ghost predicate Readable(fs: FileSystem, steps: seq<Step>) {
    forall p :: Contents(p) in steps ==> p in fs.contents
  }

  /** On a writer that cannot fail, with every file readable, the plan is written in full. */
  lemma {:induction false} RunReliable(s: Stream, failOn: nat, failure: string, fs: FileSystem, host: Host, steps: seq<Step>)
    requires Reliable(s, failOn) && Readable(fs, steps)
    ensures Run(s, failOn, failure, fs, host, steps).outcome == Pass
    ensures Run(s, failOn, failure, fs, host, steps).stream.written == s.written + Written(fs, steps)
    decreases |steps|
  {
    if steps == [] {
      assert s.written + Written(fs, steps) == s.written;
    } else {
      assert steps[0] in steps;
      var c := Chunk(fs, steps[0]).value;
      var e := Put(s, failOn, failure, c);
      assert forall p :: Contents(p) in steps[1..] ==> Contents(p) in steps;
      RunReliable(e.stream, failOn, failure, fs, host, steps[1..]);
      Regroup(s.written, c, Written(fs, steps[1..]));
    }
  }

  lemma {:induction false} RunGrows(s: Stream, failOn: nat, failure: string, fs: FileSystem, host: Host, steps: seq<Step>)
    ensures s.written <= Run(s, failOn, failure, fs, host, steps).stream.written
    decreases |steps|
  {
    if steps != [] {
      var chunk := Chunk(fs, steps[0]);
      if chunk.Some? {
        var e := Put(s, failOn, failure, chunk.value);
        if e.outcome.Pass? {
          RunGrows(e.stream, failOn, failure, fs, host, steps[1..]);
        }
      }
    }
  }

  /** Whatever the writer, it accepts a prefix of what a writer that never fails accepts, and
      all of it when nothing fails. */
  lemma {:induction false} RunPrefix(s: Stream, failOn: nat, failure: string, fs: FileSystem, host: Host, steps: seq<Step>)
    ensures var e, full := Run(s, failOn, failure, fs, host, steps), Run(s, 0, failure, fs, host, steps);
      e.stream.written <= full.stream.written && (e.outcome.Pass? ==> e == full)
    decreases |steps|
  {
    if steps != [] {
      var chunk := Chunk(fs, steps[0]);
      if chunk.Some? {
        var e := Put(s, failOn, failure, chunk.value);
        var f := Put(s, 0, failure, chunk.value);
        if e.outcome.Pass? {
          assert e.stream == f.stream;
          RunPrefix(e.stream, failOn, failure, fs, host, steps[1..]);
        } else {
          RunGrows(f.stream, 0, failure, fs, host, steps[1..]);
        }
      }
    }
  }

  /** A plan fails only on a write, with the writer's error, or on a read of one of its files. */
  lemma {:induction false} RunFailure(s: Stream, failOn: nat, failure: string, fs: FileSystem, host: Host, steps: seq<Step>)
    ensures var e := Run(s, failOn, failure, fs, host, steps);
      e.outcome.Fail? ==>
        e.outcome.error == WriteError(failure)
        || exists p :: Contents(p) in steps && p !in fs.contents && e.outcome.error == ReadError(p, host.readFailure)
    decreases |steps|
  {
    if steps != [] {
      var chunk := Chunk(fs, steps[0]);
      if chunk.None? {
        assert Contents(steps[0].path) == steps[0];
      } else {
        var e := Put(s, failOn, failure, chunk.value);
        if e.outcome.Pass? {
          RunFailure(e.stream, failOn, failure, fs, host, steps[1..]);
          assert forall p :: Contents(p) in steps[1..] ==> Contents(p) in steps;
        }
      }
    }
  }

  // ----- the rendered document --------------------------------------------------------------

  /** The files as they appear in the output: each after a line feed and before the separator. */
  function Document(fs: FileSystem, files: seq<Path>, sep: string): string
    decreases |files|
  {
    if files == [] then "" else "\n" + fs.Read(files[0]).GetOr("") + sep + Document(fs, files[1..], sep)
  }

  lemma {:induction false} WrittenThen(fs: FileSystem, a: seq<Step>, b: seq<Step>)
    ensures Written(fs, a + b) == Written(fs, a) + Written(fs, b)
    decreases |a|
  {
    if a == [] {
      assert a + b == b;
    } else {
      assert a == [a[0]] + a[1..] && a + b == [a[0]] + (a[1..] + b);
      WrittenStep(fs, a[0], a[1..] + b);
      WrittenStep(fs, a[0], a[1..]);
      WrittenThen(fs, a[1..], b);
      Regroup(Chunk(fs, a[0]).GetOr(""), Written(fs, a[1..]), Written(fs, b));
    }
  }

  lemma WrittenStep(fs: FileSystem, step: Step, more: seq<Step>)
    ensures Written(fs, [step] + more) == Chunk(fs, step).GetOr("") + Written(fs, more)
  {
    assert ([step] + more)[0] == step && ([step] + more)[1..] == more;
  }

  lemma WrittenOne(fs: FileSystem, step: Step)
    ensures Written(fs, [step]) == Chunk(fs, step).GetOr("")
  {
    WrittenStep(fs, step, []);
    assert [step] + [] == [step];
  }

  lemma WrittenFile(fs: FileSystem, file: Path, sep: string)
    ensures Written(fs, FileStep(file, sep)) == "\n" + fs.Read(file).GetOr("") + sep
  {
    var c := fs.Read(file).GetOr("");
    if sep == [] {
      assert FileStep(file, sep) == [Text("\n")] + [Contents(file)];
      WrittenStep(fs, Text("\n"), [Contents(file)]);
      WrittenOne(fs, Contents(file));
    } else {
      assert FileStep(file, sep) == [Text("\n")] + ([Contents(file)] + [Text(sep)]);
      WrittenStep(fs, Text("\n"), [Contents(file)] + [Text(sep)]);
      WrittenStep(fs, Contents(file), [Text(sep)]);
      WrittenOne(fs, Text(sep));
    }
  }

  lemma {:induction false} WrittenFiles(fs: FileSystem, files: seq<Path>, sep: string)
    ensures Written(fs, FileSteps(files, sep)) == Document(fs, files, sep)
    decreases |files|
  {
    if files != [] {
      WrittenThen(fs, FileStep(files[0], sep), FileSteps(files[1..], sep));
      WrittenFile(fs, files[0], sep);
      WrittenFiles(fs, files[1..], sep);
    }
  }

  lemma {:induction false} FileStepsPaths(files: seq<Path>, sep: string, p: Path)
    requires Contents(p) in FileSteps(files, sep)
    ensures p in files
    decreases |files|
  {
    if files != [] {
      if Contents(p) !in FileStep(files[0], sep) {
        assert Contents(p) in FileSteps(files[1..], sep);
        FileStepsPaths(files[1..], sep, p);
      }
    }
  }

  lemma WrittenPlan(fs: FileSystem, cfg: Config, host: Host, req: Request, files: seq<Path>)
    ensures Written(fs, Plan(cfg, host, req, files))
      == PreText(req) + "\n" + host.prefix + Document(fs, files, req.separator.GetOr("")) + "\n\n" + PostText(cfg, req)
  {
    var sep, post, pre := req.separator.GetOr(""), PostText(cfg, req), PreText(req);
    var head := Opening(host, req);
    PlanParts(cfg, host, req, files);
    WrittenThen(fs, head, FileSteps(files, sep) + Closing(post));
    WrittenThen(fs, FileSteps(files, sep), Closing(post));
    WrittenFiles(fs, files, sep);
    WrittenStep(fs, Text(pre), [Text("\n")] + [Text(host.prefix)]);
    WrittenStep(fs, Text("\n"), [Text(host.prefix)]);
    WrittenOne(fs, Text(host.prefix));
    WrittenStep(fs, Text("\n\n"), [Text(post)]);
    WrittenOne(fs, Text(post));
  }

  /** Every file that exists can be read. */
  ghost predicate FilesReadable(fs: FileSystem) {
    forall p :: fs.Exists(p) ==> p in fs.contents
  }

  /** The files a resolution lists exist: they are `.md` dependencies found in the library. */
  lemma ResolvedExist(cfg: Config, lib: Path, fs: FileSystem, name: string, p: Path)
    requires p in Resolve(cfg, lib, fs, name, Empty).state.out
    ensures fs.Exists(p)
  {
    var w := Resolve(cfg, lib, fs, name, Empty);
    ResolveAccounted(cfg, lib, fs, name, Empty);
    assert Added(Empty, w) == w.state.out;
    assert FromLibrary(cfg, lib, fs, p);
  }

  /** The plan for readable `files`, on a writer that cannot fail, is written in full. */
  lemma PlanReliable(cfg: Config, host: Host, req: Request, files: seq<Path>, fs: FileSystem, s: Stream, failOn: nat, failure: string)
    requires Reliable(s, failOn) && forall p :: p in files ==> p in fs.contents
    ensures var e := Run(s, failOn, failure, fs, host, Plan(cfg, host, req, files));
      e.outcome == Pass
      && e.stream.written == s.written + PreText(req) + "\n" + host.prefix + Document(fs, files, req.separator.GetOr(""))
                              + "\n\n" + PostText(cfg, req)
  {
    var plan := Plan(cfg, host, req, files);
    var sep := req.separator.GetOr("");
    PlanParts(cfg, host, req, files);
    forall p | Contents(p) in plan ensures p in fs.contents {
      assert Contents(p) in FileSteps(files, sep);
      FileStepsPaths(files, sep, p);
    }
    RunReliable(s, failOn, failure, fs, host, plan);
    WrittenPlan(fs, cfg, host, req, files);
  }

  /** The plan for `files` fails with the writer's error or on the read of one of `files`, and
      what it writes is a prefix of what a writer that never fails receives. */
  lemma PlanFailure(cfg: Config, host: Host, req: Request, files: seq<Path>, fs: FileSystem, s: Stream, failOn: nat, failure: string)
    ensures var plan := Plan(cfg, host, req, files);
      var e := Run(s, failOn, failure, fs, host, plan);
      e.stream.written <= Run(s, 0, failure, fs, host, plan).stream.written
      && (e.outcome.Fail? ==> e.outcome.error == WriteError(failure) || Unreadable(fs, host, files, e.outcome.error))
  {
    var plan := Plan(cfg, host, req, files);
    RunPrefix(s, failOn, failure, fs, host, plan);
    RunFailure(s, failOn, failure, fs, host, plan);
    var e := Run(s, failOn, failure, fs, host, plan);
    if e.outcome.Fail? && e.outcome.error != WriteError(failure) {
      var p :| Contents(p) in plan && p !in fs.contents && e.outcome.error == ReadError(p, host.readFailure);
      PlanParts(cfg, host, req, files);
      assert Contents(p) in FileSteps(files, req.separator.GetOr(""));
      FileStepsPaths(files, req.separator.GetOr(""), p);
      assert Unreadable(fs, host, files, e.outcome.error);
    }
  }

  /** On a writer that cannot fail, with the library readable, a profile that resolves is
      rendered as the pre-prompt (the argument, else the default), a line feed, the system
      prefix, every resolved file after a line feed and before the separator, two line feeds
      and the post-prompt (the argument, else the configuration's, else the default). */
  lemma RenderReliable(cfg: Config, lib: Path, fs: FileSystem, host: Host, req: Request, s: Stream, failOn: nat, failure: string)
    requires Resolve(cfg, lib, fs, req.profile, Empty).outcome.Pass?
    requires Reliable(s, failOn) && FilesReadable(fs)
    ensures var e := Render(cfg, lib, fs, host, req, s, failOn, failure);
      var files := Resolve(cfg, lib, fs, req.profile, Empty).state.out;
      e.outcome == Pass
      && e.stream.written == s.written + PreText(req) + "\n" + host.prefix + Document(fs, files, req.separator.GetOr(""))
                              + "\n\n" + PostText(cfg, req)
  {
    var files := Resolve(cfg, lib, fs, req.profile, Empty).state.out;
    RenderRuns(cfg, lib, fs, host, req, s, failOn, failure);
    forall p | p in files ensures p in fs.contents {
      ResolvedExist(cfg, lib, fs, req.profile, p);
    }
    PlanReliable(cfg, host, req, files, fs, s, failOn, failure);
  }

  /** `error` reports the failed read of one of `files`. */
  ghost predicate Unreadable(fs: FileSystem, host: Host, files: seq<Path>, error: string) {
    exists p :: p in files && p !in fs.contents && error == ReadError(p, host.readFailure)
  }

  /** What any writer receives is a prefix of the full rendering, and on failure the error is
      the resolution's (with nothing written), the writer's, or the read of a resolved file. */
  lemma RenderFailure(cfg: Config, lib: Path, fs: FileSystem, host: Host, req: Request, s: Stream, failOn: nat, failure: string)
    ensures var e := Render(cfg, lib, fs, host, req, s, failOn, failure);
      var w := Resolve(cfg, lib, fs, req.profile, Empty);
      e.stream.written <= Render(cfg, lib, fs, host, req, s, 0, failure).stream.written
      && (e.outcome.Fail? ==>
            (w.outcome.Fail? && e.outcome.error == ResolveMessage(w.outcome.error) && e.stream == s)
            || (w.outcome.Pass? && e.outcome.error == WriteError(failure))
            || (w.outcome.Pass? && Unreadable(fs, host, w.state.out, e.outcome.error)))
  {
    var w := Resolve(cfg, lib, fs, req.profile, Empty);
    if w.outcome.Pass? {
      RenderRuns(cfg, lib, fs, host, req, s, failOn, failure);
      RenderRuns(cfg, lib, fs, host, req, s, 0, failure);
      PlanFailure(cfg, host, req, w.state.out, fs, s, failOn, failure);
    }
  }

  // ----- scenarios --------------------------------------------------------------------------

  /** A writer whose first write fails receives nothing (src/lib.rs:1464-1480). */
  lemma FirstWriteFails(cfg: Config, lib: Path, fs: FileSystem, host: Host, req: Request, failure: string)
    requires Resolve(cfg, lib, fs, req.profile, Empty).outcome.Pass? && PreText(req) != []
    ensures Render(cfg, lib, fs, host, req, Stream([], 0), 1, failure) == Emitted(Fail(WriteError(failure)), Stream([], 1))
  {
    var files := Resolve(cfg, lib, fs, req.profile, Empty).state.out;
    var sep, post := req.separator.GetOr(""), PostText(cfg, req);
    RenderRuns(cfg, lib, fs, host, req, Stream([], 0), 1, failure);
    PlanParts(cfg, host, req, files);
    RunThen(Stream([], 0), 1, failure, fs, host, Opening(host, req), FileSteps(files, sep) + Closing(post));
    RunStep(Stream([], 0), 1, failure, fs, host, Text(PreText(req)), [Text("\n")] + [Text(host.prefix)]);
  }

  /** A writer whose third write fails has received the pre-prompt and the line feed: the
      third write is the system prefix (src/lib.rs:1445-1462). */
  lemma ThirdWriteFails(cfg: Config, lib: Path, fs: FileSystem, host: Host, req: Request, failure: string)
    requires Resolve(cfg, lib, fs, req.profile, Empty).outcome.Pass? && PreText(req) != [] && host.prefix != []
    ensures Render(cfg, lib, fs, host, req, Stream([], 0), 3, failure)
      == Emitted(Fail(WriteError(failure)), Stream(PreText(req) + "\n", 3))
  {
    var files := Resolve(cfg, lib, fs, req.profile, Empty).state.out;
    var sep, post, pre := req.separator.GetOr(""), PostText(cfg, req), PreText(req);
    RenderRuns(cfg, lib, fs, host, req, Stream([], 0), 3, failure);
    PlanParts(cfg, host, req, files);
    RunThen(Stream([], 0), 3, failure, fs, host, Opening(host, req), FileSteps(files, sep) + Closing(post));
    RunStep(Stream([], 0), 3, failure, fs, host, Text(pre), [Text("\n")] + [Text(host.prefix)]);
    assert Put(Stream([], 0), 3, failure, pre) == Emitted(Pass, Stream(pre, 1));
    RunStep(Stream(pre, 1), 3, failure, fs, host, Text("\n"), [Text(host.prefix)]);
    assert Put(Stream(pre, 1), 3, failure, "\n") == Emitted(Pass, Stream(pre + "\n", 2));
    RunText(Stream(pre + "\n", 2), 3, failure, fs, host, host.prefix);
  }

  lemma DocumentTwo(fs: FileSystem, a: Path, b: Path, sep: string)
    ensures Document(fs, [a, b], sep) == "\n" + fs.Read(a).GetOr("") + sep + ("\n" + fs.Read(b).GetOr("") + sep)
  {
    assert [a, b][1..] == [b] && [b][1..] == [];
    assert Document(fs, [b], sep) == "\n" + fs.Read(b).GetOr("") + sep;
  }

  /** A profile resolving to the readable files `a` and `b`, on a writer that cannot fail. */
  lemma RenderTwo(cfg: Config, lib: Path, fs: FileSystem, host: Host, req: Request, s: Stream, failOn: nat, failure: string, a: Path, b: Path)
    requires Resolve(cfg, lib, fs, req.profile, Empty).outcome.Pass? && Resolve(cfg, lib, fs, req.profile, Empty).state.out == [a, b]
    requires Reliable(s, failOn) && FilesReadable(fs)
    ensures var e, sep := Render(cfg, lib, fs, host, req, s, failOn, failure), req.separator.GetOr("");
      e.outcome == Pass
      && e.stream.written == s.written + PreText(req) + "\n" + host.prefix
                              + ("\n" + fs.Read(a).GetOr("") + sep + ("\n" + fs.Read(b).GetOr("") + sep))
                              + "\n\n" + PostText(cfg, req)
  {
    RenderReliable(cfg, lib, fs, host, req, s, failOn, failure);
    DocumentTwo(fs, a, b, req.separator.GetOr(""));
  }

  /** `root` lists `child`, `f/y.md` and `a/x.md`, `child` lists `a/x.md`, the files hold
      `AX\n` and `FY\n`, and the separator is `\n--\n`: the output is the default pre-prompt,
      the prefix, each file once in depth-first order with the separator after it, and the
      default post-prompt (src/lib.rs:1201-1237). */
  lemma BasicRenderExample(cfg: Config, lib: Path, fs: FileSystem, host: Host, req: Request, s: Stream, failure: string,
                           child: string, root: string, x: string, y: string, sep: string)
    requires child == "child" && root == "root" && x == "a/x.md" && y == "f/y.md" && sep == "\n--\n"
    requires cfg == Config(map[child := [x], root := [child, y, x]], None)
    requires fs.present == {JoinPath(lib, x), JoinPath(lib, y)}
    requires fs.contents == map[JoinPath(lib, x) := "AX\n", JoinPath(lib, y) := "FY\n"]
    requires req == Request(root, Some(sep), None, None)
    ensures var e := Render(cfg, lib, fs, host, req, s, 0, failure);
      e.outcome == Pass
      && e.stream.written == s.written + DefaultPrePrompt + "\n" + host.prefix
                              + ("\n" + "AX\n" + sep + ("\n" + "FY\n" + sep)) + "\n\n" + DefaultPostPrompt
  {
    var px, py := JoinPath(lib, x), JoinPath(lib, y);
    assert x[0] != y[0];
    JoinPathDistinct(lib, x, y);
    NestedExample(cfg, lib, fs, child, root, x, y);
    RenderTwo(cfg, lib, fs, host, req, s, 0, failure, px, py);
    assert fs.Read(px) == Some("AX\n") && fs.Read(py) == Some("FY\n");
    assert PreText(req) == DefaultPrePrompt && PostText(cfg, req) == DefaultPostPrompt;
  }
}
