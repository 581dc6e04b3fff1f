/** `resolve_profile` (src/lib.rs:612-648): the depth-first expansion of a profile into the files
    it includes. `Resolve` and `ResolveDeps` say what one call does to the three things the
    source passes by `&mut` (the `seen_files` set, the `stack` and the `out` list), including the
    state an error leaves behind; `Resolution.ResolveProfile` is the source's recursive method,
    proved equal to them. `Expand` is an independent reading of the same walk (every `.md`
    file of every dependency, depth first, duplicates kept), against which the dedup is proved.
    The `.md` test is written as `EndsInMd`, which `Profiles.MarkdownByEnding` proves equal to
    the extension test `IsMarkdown`. */
module Resolver {
  import opened Wrappers
  import opened Profiles

  /** The values behind `seen_files`, `stack` and `out`. */
  datatype State = State(seen: set<Path>, stack: seq<string>, out: seq<Path>)

  /** The outcome of a call and the state it leaves. */
  datatype Walk = Walk(outcome: Outcome<ResolveError>, state: State)

  function Elems<T>(s: seq<T>): set<T> {
    set x | x in s
  }

  predicate NoDup<T(==)>(s: seq<T>) {
    forall i, j :: 0 <= i < j < |s| ==> s[i] != s[j]
  }

  /** The profiles not yet on the stack; a profile is pushed only when it is one of the keys and
      not already on the stack, so this set shrinks with every nested call. */
  function Unvisited(cfg: Config, stack: seq<string>): set<string> {
    cfg.profiles.Keys - Elems(stack)
  }

  lemma UnvisitedShrinks(cfg: Config, stack: seq<string>, name: string)
    requires name in cfg.profiles && name !in stack
    ensures Unvisited(cfg, stack + [name]) < Unvisited(cfg, stack)
  {
    assert Elems(stack + [name]) == Elems(stack) + {name};
    assert name in Unvisited(cfg, stack);
  }

  /** `seen_files.insert(path)`, and `out.push(path)` when the insert was new. */
  function Include(s: State, path: Path): State {
    if path in s.seen then s else s.(seen := s.seen + {path}, out := s.out + [path])
  }

  /** One call `resolve_profile(name, ...)` from state `s`. */
  function Resolve(cfg: Config, lib: Path, fs: FileSystem, name: string, s: State): (w: Walk)
    ensures w.outcome.Pass? ==> w.state.stack == s.stack
    decreases Unvisited(cfg, s.stack), 0, 0
  {
    if name in s.stack then Walk(Fail(Cycle(s.stack + [name])), s)
    else if name !in cfg.profiles then Walk(Fail(UnknownProfile(name)), s)
    else
      UnvisitedShrinks(cfg, s.stack, name);
      var w := ResolveDeps(cfg, lib, fs, name, cfg.profiles[name], s.(stack := s.stack + [name]));
      if w.outcome.Fail? then w
      else Walk(Pass, w.state.(stack := w.state.stack[..|w.state.stack| - 1]))
  }

  /** The loop over the dependencies `deps` of profile `name`, with `name` already pushed. */
  function ResolveDeps(cfg: Config, lib: Path, fs: FileSystem, name: string, deps: seq<string>, s: State): (w: Walk)
    ensures w.outcome.Pass? ==> w.state.stack == s.stack
    decreases Unvisited(cfg, s.stack), 1, |deps|
  {
    if deps == [] then Walk(Pass, s)
    else if EndsInMd(deps[0]) then
      var path := JoinPath(lib, deps[0]);
      if !fs.Exists(path) then Walk(Fail(MissingFile(path, name)), s)
      else ResolveDeps(cfg, lib, fs, name, deps[1..], Include(s, path))
    else
      var w := Resolve(cfg, lib, fs, deps[0], s);
      if w.outcome.Fail? then w
      else ResolveDeps(cfg, lib, fs, name, deps[1..], w.state)
  }

  /** The fresh state every caller starts from. */
  const Empty := State({}, [], [])

  /** `resolve_profile` with its three `&mut` arguments as fields. */
  class Resolution {
    var seen: set<Path>
    var stack: seq<string>
    var out: seq<Path>

    constructor ()
      ensures seen == {} && stack == [] && out == []
    {
      seen, stack, out := {}, [], [];
    }

    function Snapshot(): State
      reads this
    {
      State(seen, stack, out)
    }

    method ResolveProfile(name: string, cfg: Config, lib: Path, fs: FileSystem) returns (r: Outcome<ResolveError>)
      modifies this
      ensures Walk(r, Snapshot()) == Resolve(cfg, lib, fs, name, old(Snapshot()))
      decreases Unvisited(cfg, stack)
    {
      if name in stack {
        var cycle := stack + [name];
        return Fail(Cycle(cycle));
      }
      if name !in cfg.profiles {
        return Fail(UnknownProfile(name));
      }
      var deps := cfg.profiles[name];
      UnvisitedShrinks(cfg, stack, name);
      stack := stack + [name];
      ghost var entry := Snapshot();
      for i := 0 to |deps|
        invariant stack == old(stack) + [name]
        invariant ResolveDeps(cfg, lib, fs, name, deps, entry) == ResolveDeps(cfg, lib, fs, name, deps[i..], Snapshot())
      {
        var dep := deps[i];
        assert deps[i..][0] == dep && deps[i..][1..] == deps[i + 1..];
        if EndsInMd(dep) {
          var path := JoinPath(lib, dep);
          if !fs.Exists(path) {
            return Fail(MissingFile(path, name));
          }
          ghost var before := Snapshot();
          var inserted := path !in seen;
          seen := seen + {path};
          if inserted {
            out := out + [path];
          }
          assert Snapshot() == Include(before, path);
        } else {
          ghost var before := Snapshot();
          var res := ResolveProfile(dep, cfg, lib, fs);
          if res.Fail? {
            return res;
          }
          assert Resolve(cfg, lib, fs, dep, before) == Walk(Pass, Snapshot());
        }
      }
      stack := stack[..|stack| - 1];
      return Pass;
    }
  }

  // ----- growth of the state -------------------------------------------------------------

  /** The paths a call appended to `out`. */
  function Added(s: State, w: Walk): seq<Path>
    requires |s.out| <= |w.state.out|
  {
    w.state.out[|s.out|..]
  }

  /** What any call does to the state, whatever its outcome: `out` and `stack` only grow at
      their ends, and `seen` grows by exactly the paths appended to `out`, each new to `seen`
      and appended once. */
  predicate Grows(s: State, w: Walk) {
    s.out <= w.state.out && s.stack <= w.state.stack
    && w.state.seen == s.seen + Elems(Added(s, w))
    && NoDup(Added(s, w))
    && (forall p :: p in Added(s, w) ==> p !in s.seen)
  }

  lemma GrowsRefl(s: State)
    ensures Grows(s, Walk(Pass, s))
  {
    assert Added(s, Walk(Pass, s)) == [];
  }

  lemma GrowsTrans(s: State, t: State, w: Walk)
    requires Grows(s, Walk(Pass, t)) && Grows(t, w)
    ensures Grows(s, w)
  {
    var a, b := t.out[|s.out|..], w.state.out[|t.out|..];
    assert w.state.out[|s.out|..] == a + b;
    assert Elems(a + b) == Elems(a) + Elems(b);
    forall i, j | 0 <= i < j < |a + b|
      ensures (a + b)[i] != (a + b)[j]
    {
      if i < |a| && j >= |a| {
        assert (a + b)[i] in Elems(a) && (a + b)[j] == b[j - |a|];
      }
    }
  }

  lemma GrowsInclude(s: State, path: Path)
    ensures Grows(s, Walk(Pass, Include(s, path)))
  {
    if path in s.seen {
      GrowsRefl(s);
    } else {
      assert Include(s, path).out[|s.out|..] == [path];
    }
  }

  lemma GrowsPush(s: State, name: string, t: State)
    requires Grows(s.(stack := s.stack + [name]), Walk(Pass, t))
    ensures Grows(s, Walk(Pass, t))
  {
  }

  lemma GrowsPop(s: State, name: string, w: Walk)
    requires Grows(s.(stack := s.stack + [name]), w) && w.state.stack == s.stack + [name]
    ensures Grows(s, Walk(Pass, w.state.(stack := w.state.stack[..|w.state.stack| - 1])))
  {
    assert (s.stack + [name])[..|s.stack|] == s.stack;
  }

  lemma {:induction false} ResolveGrows(cfg: Config, lib: Path, fs: FileSystem, name: string, s: State)
    ensures Grows(s, Resolve(cfg, lib, fs, name, s))
    decreases Unvisited(cfg, s.stack), 0, 0
  {
    if name in s.stack || name !in cfg.profiles {
      GrowsRefl(s);
    } else {
      var pushed := s.(stack := s.stack + [name]);
      UnvisitedShrinks(cfg, s.stack, name);
      var w := ResolveDeps(cfg, lib, fs, name, cfg.profiles[name], pushed);
      ResolveDepsGrows(cfg, lib, fs, name, cfg.profiles[name], pushed);
      if w.outcome.Fail? {
        GrowsPush(s, name, w.state);
      } else {
        GrowsPop(s, name, w);
      }
    }
  }

  lemma {:induction false} ResolveDepsGrows(cfg: Config, lib: Path, fs: FileSystem, name: string, deps: seq<string>, s: State)
    ensures Grows(s, ResolveDeps(cfg, lib, fs, name, deps, s))
    decreases Unvisited(cfg, s.stack), 1, |deps|
  {
    if deps == [] {
      GrowsRefl(s);
    } else if EndsInMd(deps[0]) {
      var path := JoinPath(lib, deps[0]);
      if !fs.Exists(path) {
        GrowsRefl(s);
      } else {
        var t := Include(s, path);
        GrowsInclude(s, path);
        ResolveDepsGrows(cfg, lib, fs, name, deps[1..], t);
        GrowsTrans(s, t, ResolveDeps(cfg, lib, fs, name, deps[1..], t));
      }
    } else {
      var w := Resolve(cfg, lib, fs, deps[0], s);
      ResolveGrows(cfg, lib, fs, deps[0], s);
      if w.outcome.Pass? {
        ResolveDepsGrows(cfg, lib, fs, name, deps[1..], w.state);
        GrowsTrans(s, w.state, ResolveDeps(cfg, lib, fs, name, deps[1..], w.state));
      }
    }
  }

  /** On success `stack` is back to its value on entry, the old `out` is a prefix of the new,
      and `seen` grew by exactly the appended paths. */
  lemma ResolveRestoresStack(cfg: Config, lib: Path, fs: FileSystem, name: string, s: State)
    ensures var w := Resolve(cfg, lib, fs, name, s);
      w.outcome.Pass? ==>
        w.state.stack == s.stack && s.out <= w.state.out
        && w.state.seen == s.seen + Elems(w.state.out[|s.out|..])
  {
    ResolveGrows(cfg, lib, fs, name, s);
  }

  /** Whatever the outcome, a call keeps `out` free of duplicates and inside `seen`. */
  lemma ResolveKeepsDedup(cfg: Config, lib: Path, fs: FileSystem, name: string, s: State)
    requires NoDup(s.out) && Elems(s.out) <= s.seen
    ensures var t := Resolve(cfg, lib, fs, name, s).state;
      NoDup(t.out) && Elems(t.out) <= t.seen
  {
    var w := Resolve(cfg, lib, fs, name, s);
    ResolveGrows(cfg, lib, fs, name, s);
    var a := Added(s, w);
    assert w.state.out == s.out + a;
    forall i, j | 0 <= i < j < |w.state.out|
      ensures w.state.out[i] != w.state.out[j]
    {
      if i < |s.out| && j >= |s.out| {
        assert w.state.out[i] in Elems(s.out) && w.state.out[j] == a[j - |s.out|];
      }
    }
  }

  // ----- where appended paths and errors come from -----------------------------------------

  /** `p` is the joined path of a `.md` dependency of some profile, and it exists. */
  predicate FromLibrary(cfg: Config, lib: Path, fs: FileSystem, p: Path) {
    exists prof, d :: prof in cfg.profiles && d in cfg.profiles[prof] && EndsInMd(d)
      && p == JoinPath(lib, d) && fs.Exists(p)
  }

  /** `p` is the joined path of a `.md` dependency of `prof`, and it does not exist. */
  predicate MissingFrom(cfg: Config, lib: Path, fs: FileSystem, p: Path, prof: string) {
    prof in cfg.profiles
    && exists d :: d in cfg.profiles[prof] && EndsInMd(d) && p == JoinPath(lib, d) && !fs.Exists(p)
  }

  lemma FromLibraryOf(cfg: Config, lib: Path, fs: FileSystem, prof: string, d: string)
    requires prof in cfg.profiles && d in cfg.profiles[prof] && EndsInMd(d) && fs.Exists(JoinPath(lib, d))
    ensures FromLibrary(cfg, lib, fs, JoinPath(lib, d))
  {
  }

  lemma MissingFromOf(cfg: Config, lib: Path, fs: FileSystem, prof: string, d: string)
    requires prof in cfg.profiles && d in cfg.profiles[prof] && EndsInMd(d) && !fs.Exists(JoinPath(lib, d))
    ensures MissingFrom(cfg, lib, fs, JoinPath(lib, d), prof)
  {
  }

  /** What an outcome says about where it came from. `top` is the stack at the point of failure. */
  predicate Accounted(cfg: Config, lib: Path, fs: FileSystem, r: Outcome<ResolveError>, top: seq<string>) {
    match r
    case Pass => true
    case Fail(UnknownProfile(n)) => n !in cfg.profiles && n !in top
    case Fail(MissingFile(p, prof)) => MissingFrom(cfg, lib, fs, p, prof) && top != [] && top[|top| - 1] == prof
    case Fail(Cycle(c)) => c != [] && c[..|c| - 1] == top && c[|c| - 1] in top
  }

  /** Every path of `ps` is an existing `.md` dependency of some profile. */
  predicate AllFromLibrary(cfg: Config, lib: Path, fs: FileSystem, ps: seq<Path>) {
    forall p :: p in ps ==> FromLibrary(cfg, lib, fs, p)
  }

  /** Two calls in a row append only paths from the library when each of them does. */
  lemma AllFromLibraryThen(cfg: Config, lib: Path, fs: FileSystem, s: State, t: State, w: Walk)
    requires Grows(s, Walk(Pass, t)) && Grows(t, w)
    requires AllFromLibrary(cfg, lib, fs, Added(s, Walk(Pass, t))) && AllFromLibrary(cfg, lib, fs, Added(t, w))
    ensures |s.out| <= |w.state.out| && AllFromLibrary(cfg, lib, fs, Added(s, w))
  {
    assert Added(s, w) == Added(s, Walk(Pass, t)) + Added(t, w);
  }

  /** Every path a call appends is an existing `.md` dependency of some profile; a missing file
      is reported against the profile that lists it, which is the innermost on the stack; an
      unknown profile is reported only when it is not on the stack (the cycle test comes first);
      a cycle is the stack at that moment followed by a name already on it. */
  lemma {:induction false} ResolveAccounted(cfg: Config, lib: Path, fs: FileSystem, name: string, s: State)
    ensures var w := Resolve(cfg, lib, fs, name, s);
      |s.out| <= |w.state.out|
      && AllFromLibrary(cfg, lib, fs, Added(s, w))
      && Accounted(cfg, lib, fs, w.outcome, w.state.stack)
    decreases Unvisited(cfg, s.stack), 0, 0
  {
    ResolveGrows(cfg, lib, fs, name, s);
    if name in s.stack || name !in cfg.profiles {
      assert Added(s, Resolve(cfg, lib, fs, name, s)) == [];
    } else {
      var pushed := s.(stack := s.stack + [name]);
      UnvisitedShrinks(cfg, s.stack, name);
      ResolveDepsAccounted(cfg, lib, fs, name, cfg.profiles[name], pushed);
      var w := ResolveDeps(cfg, lib, fs, name, cfg.profiles[name], pushed);
      assert Added(pushed, w) == Added(s, Resolve(cfg, lib, fs, name, s));
    }
  }

  lemma {:induction false} ResolveDepsAccounted(cfg: Config, lib: Path, fs: FileSystem, name: string, deps: seq<string>, s: State)
    requires name in cfg.profiles && s.stack != [] && s.stack[|s.stack| - 1] == name
    requires forall k :: 0 <= k < |deps| ==> deps[k] in cfg.profiles[name]
    ensures var w := ResolveDeps(cfg, lib, fs, name, deps, s);
      |s.out| <= |w.state.out|
      && AllFromLibrary(cfg, lib, fs, Added(s, w))
      && Accounted(cfg, lib, fs, w.outcome, w.state.stack)
    decreases Unvisited(cfg, s.stack), 1, |deps|
  {
    ResolveDepsGrows(cfg, lib, fs, name, deps, s);
    var all := ResolveDeps(cfg, lib, fs, name, deps, s);
    if deps == [] {
      assert Added(s, all) == [];
    } else {
      var d := deps[0];
      assert d in cfg.profiles[name];
      if EndsInMd(d) {
        var path := JoinPath(lib, d);
        if fs.Exists(path) {
          var t := Include(s, path);
          var w := ResolveDeps(cfg, lib, fs, name, deps[1..], t);
          assert all == w;
          ResolveDepsAccounted(cfg, lib, fs, name, deps[1..], t);
          GrowsInclude(s, path);
          ResolveDepsGrows(cfg, lib, fs, name, deps[1..], t);
          FromLibraryOf(cfg, lib, fs, name, d);
          assert Added(s, Walk(Pass, t)) == [] || Added(s, Walk(Pass, t)) == [path];
          AllFromLibraryThen(cfg, lib, fs, s, t, w);
        } else {
          assert all == Walk(Fail(MissingFile(path, name)), s);
          assert Added(s, all) == [];
          MissingFromOf(cfg, lib, fs, name, d);
        }
      } else {
        var w := Resolve(cfg, lib, fs, d, s);
        ResolveAccounted(cfg, lib, fs, d, s);
        if w.outcome.Fail? {
          assert all == w;
        } else {
          var v := ResolveDeps(cfg, lib, fs, name, deps[1..], w.state);
          assert all == v;
          ResolveDepsAccounted(cfg, lib, fs, name, deps[1..], w.state);
          ResolveGrows(cfg, lib, fs, d, s);
          ResolveDepsGrows(cfg, lib, fs, name, deps[1..], w.state);
          AllFromLibraryThen(cfg, lib, fs, s, w.state, v);
        }
      }
    }
  }

  lemma NoDupCons<T>(x: T, r: seq<T>)
    requires x !in r && NoDup(r)
    ensures NoDup([x] + r)
  {
  }

  /** Each name on `c` lists the next one among its dependencies. */
  predicate Chained(cfg: Config, c: seq<string>) {
    forall i :: 0 <= i < |c| - 1 ==> c[i] in cfg.profiles && c[i + 1] in cfg.profiles[c[i]]
  }

  lemma ChainedPush(cfg: Config, c: seq<string>, x: string)
    requires Chained(cfg, c) && c != [] && c[|c| - 1] in cfg.profiles && x in cfg.profiles[c[|c| - 1]]
    ensures Chained(cfg, c + [x])
  {
  }

  /** A reported cycle extends `base`, and each of its names lists the next. */
  predicate ChainFrom(cfg: Config, base: seq<string>, r: Outcome<ResolveError>) {
    r.Fail? && r.error.Cycle? ==> Chained(cfg, r.error.chain) && base <= r.error.chain
  }

  lemma {:induction false} ResolveChainFrom(cfg: Config, lib: Path, fs: FileSystem, name: string, s: State)
    requires Chained(cfg, s.stack + [name])
    ensures ChainFrom(cfg, s.stack, Resolve(cfg, lib, fs, name, s).outcome)
    decreases Unvisited(cfg, s.stack), 0, 0
  {
    if name !in s.stack && name in cfg.profiles {
      var pushed := s.(stack := s.stack + [name]);
      UnvisitedShrinks(cfg, s.stack, name);
      ResolveDepsChainFrom(cfg, lib, fs, name, cfg.profiles[name], pushed);
    }
  }

  lemma {:induction false} ResolveDepsChainFrom(cfg: Config, lib: Path, fs: FileSystem, name: string, deps: seq<string>, s: State)
    requires name in cfg.profiles && s.stack != [] && s.stack[|s.stack| - 1] == name
    requires Chained(cfg, s.stack)
    requires forall k :: 0 <= k < |deps| ==> deps[k] in cfg.profiles[name]
    ensures ChainFrom(cfg, s.stack, ResolveDeps(cfg, lib, fs, name, deps, s).outcome)
    decreases Unvisited(cfg, s.stack), 1, |deps|
  {
    var all := ResolveDeps(cfg, lib, fs, name, deps, s);
    if deps != [] {
      var d := deps[0];
      assert d in cfg.profiles[name];
      if EndsInMd(d) {
        var path := JoinPath(lib, d);
        if fs.Exists(path) {
          assert all == ResolveDeps(cfg, lib, fs, name, deps[1..], Include(s, path));
          ResolveDepsChainFrom(cfg, lib, fs, name, deps[1..], Include(s, path));
        }
      } else {
        var w := Resolve(cfg, lib, fs, d, s);
        if w.outcome.Fail? {
          assert all == w;
          ChainedPush(cfg, s.stack, d);
          ResolveChainFrom(cfg, lib, fs, d, s);
        } else {
          assert all == ResolveDeps(cfg, lib, fs, name, deps[1..], w.state);
          ResolveDepsChainFrom(cfg, lib, fs, name, deps[1..], w.state);
        }
      }
    }
  }

  /** A reported cycle is genuine: started from a stack in which each profile lists the next,
      the chain extends that stack, each of its names lists the next, and its last name occurs
      earlier in it. */
  lemma CycleIsGenuine(cfg: Config, lib: Path, fs: FileSystem, name: string, s: State)
    requires Chained(cfg, s.stack + [name])
    ensures var r := Resolve(cfg, lib, fs, name, s).outcome;
      r.Fail? && r.error.Cycle? ==>
        var c := r.error.chain;
        Chained(cfg, c) && s.stack <= c && |c| >= 2 && c[|c| - 1] in c[..|c| - 1]
  {
    ResolveChainFrom(cfg, lib, fs, name, s);
    ResolveAccounted(cfg, lib, fs, name, s);
  }

  // ----- the reference expansion and first-occurrence dedup --------------------------------

  /** Every existing `.md` file reached from `name`, depth first and in declared order,
      duplicates kept; the error is the first one met on the way. */
  function Expand(cfg: Config, lib: Path, fs: FileSystem, name: string, stack: seq<string>): Result<seq<Path>, ResolveError>
    decreases Unvisited(cfg, stack), 0, 0
  {
    if name in stack then Err(Cycle(stack + [name]))
    else if name !in cfg.profiles then Err(UnknownProfile(name))
    else
      UnvisitedShrinks(cfg, stack, name);
      ExpandDeps(cfg, lib, fs, name, cfg.profiles[name], stack + [name])
  }

  function ExpandDeps(cfg: Config, lib: Path, fs: FileSystem, name: string, deps: seq<string>, stack: seq<string>): Result<seq<Path>, ResolveError>
    decreases Unvisited(cfg, stack), 1, |deps|
  {
    if deps == [] then Ok([])
    else
      var head :=
        if !EndsInMd(deps[0]) then Expand(cfg, lib, fs, deps[0], stack)
        else if fs.Exists(JoinPath(lib, deps[0])) then Ok([JoinPath(lib, deps[0])])
        else Err(MissingFile(JoinPath(lib, deps[0]), name));
      match head
      case Err(e) => Err(e)
      case Ok(a) =>
        match ExpandDeps(cfg, lib, fs, name, deps[1..], stack)
        case Err(e) => Err(e)
        case Ok(b) => Ok(a + b)
  }

  /** The paths of `ps` not in `seen`, each at its first occurrence only. */
  function FirstOccurrences(ps: seq<Path>, seen: set<Path>): (r: seq<Path>)
    ensures NoDup(r) && Elems(r) == Elems(ps) - seen
  {
    if ps == [] then []
    else if ps[0] in seen then FirstOccurrences(ps[1..], seen)
    else
      var rest := FirstOccurrences(ps[1..], seen + {ps[0]});
      assert Elems(ps) == {ps[0]} + Elems(ps[1..]);
      assert ps[0] !in Elems(rest);
      NoDupCons(ps[0], rest);
      assert Elems([ps[0]] + rest) == {ps[0]} + Elems(rest);
      [ps[0]] + rest
  }

  lemma {:induction false} FirstOccurrencesAppend(a: seq<Path>, b: seq<Path>, seen: set<Path>)
    ensures FirstOccurrences(a + b, seen) == FirstOccurrences(a, seen) + FirstOccurrences(b, seen + Elems(a))
  {
    if a == [] {
      assert a + b == b && seen + Elems(a) == seen;
    } else {
      assert (a + b)[0] == a[0] && (a + b)[1..] == a[1..] + b;
      assert Elems(a) == {a[0]} + Elems(a[1..]);
      if a[0] in seen {
        FirstOccurrencesAppend(a[1..], b, seen);
        assert seen + Elems(a) == seen + Elems(a[1..]);
      } else {
        FirstOccurrencesAppend(a[1..], b, seen + {a[0]});
        assert seen + {a[0]} + Elems(a[1..]) == seen + Elems(a);
      }
    }
  }

  function OutcomeOf(e: Result<seq<Path>, ResolveError>): Outcome<ResolveError> {
    match e
    case Ok(_) => Pass
    case Err(err) => Fail(err)
  }

  /** What a successful walk leaves: every reached file in `seen`, the stack as on entry, and
      each reached file not seen before appended to `out` once, at its first occurrence. */
  function Deduplicated(s: State, ps: seq<Path>): State {
    State(s.seen + Elems(ps), s.stack, s.out + FirstOccurrences(ps, s.seen))
  }

  lemma DeduplicatedInclude(s: State, p: Path, b: seq<Path>)
    ensures Deduplicated(Include(s, p), b) == Deduplicated(s, [p] + b)
  {
    assert ([p] + b)[0] == p && ([p] + b)[1..] == b;
    assert Elems([p] + b) == {p} + Elems(b);
    if p !in s.seen {
      assert s.out + [p] + FirstOccurrences(b, s.seen + {p}) == s.out + ([p] + FirstOccurrences(b, s.seen + {p}));
    }
  }

  lemma DeduplicatedThen(s: State, a: seq<Path>, b: seq<Path>)
    ensures Deduplicated(Deduplicated(s, a), b) == Deduplicated(s, a + b)
  {
    FirstOccurrencesAppend(a, b, s.seen);
    assert Elems(a + b) == Elems(a) + Elems(b);
  }

  /** `resolve_profile` is the reference expansion with first-occurrence dedup against `seen`:
      it fails exactly when the expansion does, with the same error, and on success leaves the
      state `Deduplicated` describes. */
  lemma {:induction false} ResolveIsDedupedExpansion(cfg: Config, lib: Path, fs: FileSystem, name: string, s: State)
    ensures var w := Resolve(cfg, lib, fs, name, s);
      var e := Expand(cfg, lib, fs, name, s.stack);
      w.outcome == OutcomeOf(e) && (e.Ok? ==> w.state == Deduplicated(s, e.value))
    decreases Unvisited(cfg, s.stack), 0, 0
  {
    if name !in s.stack && name in cfg.profiles {
      var pushed := s.(stack := s.stack + [name]);
      UnvisitedShrinks(cfg, s.stack, name);
      ResolveDepsIsDedupedExpansion(cfg, lib, fs, name, cfg.profiles[name], pushed);
    }
  }

  lemma {:induction false} ResolveDepsIsDedupedExpansion(cfg: Config, lib: Path, fs: FileSystem, name: string, deps: seq<string>, s: State)
    ensures var w := ResolveDeps(cfg, lib, fs, name, deps, s);
      var e := ExpandDeps(cfg, lib, fs, name, deps, s.stack);
      w.outcome == OutcomeOf(e) && (e.Ok? ==> w.state == Deduplicated(s, e.value))
    decreases Unvisited(cfg, s.stack), 1, |deps|
  {
    if deps == [] {
      assert Deduplicated(s, []) == s;
    } else if EndsInMd(deps[0]) {
      var path := JoinPath(lib, deps[0]);
      if fs.Exists(path) {
        var t := Include(s, path);
        ResolveDepsIsDedupedExpansion(cfg, lib, fs, name, deps[1..], t);
        var e := ExpandDeps(cfg, lib, fs, name, deps[1..], s.stack);
        if e.Ok? {
          DeduplicatedInclude(s, path, e.value);
        }
      }
    } else {
      var w := Resolve(cfg, lib, fs, deps[0], s);
      ResolveIsDedupedExpansion(cfg, lib, fs, deps[0], s);
      var a := Expand(cfg, lib, fs, deps[0], s.stack);
      if a.Ok? {
        ResolveDepsIsDedupedExpansion(cfg, lib, fs, name, deps[1..], w.state);
        var e := ExpandDeps(cfg, lib, fs, name, deps[1..], s.stack);
        if e.Ok? {
          DeduplicatedThen(s, a.value, e.value);
        }
      }
    }
  }

  // ----- the unit-test scenarios ----------------------------------------------------------

  /** `root` lists only `missing.md`, which does not exist: the error names the joined path
      and `root` (src/lib.rs:1113-1126). */
  lemma MissingFileExample(cfg: Config, lib: Path, fs: FileSystem, root: string, file: string)
    requires root == "root" && file == "missing.md"
    requires cfg.profiles == map[root := [file]]
    requires !fs.Exists(JoinPath(lib, file))
    ensures Resolve(cfg, lib, fs, root, Empty).outcome == Fail(MissingFile(JoinPath(lib, file), root))
  {
    assert EndsInMd(file);
    var pushed := State({}, [root], []);
    assert ResolveDeps(cfg, lib, fs, root, [file], pushed).outcome == Fail(MissingFile(JoinPath(lib, file), root));
  }

  /** `B` lists `A` and then `a/b.md`, and `A` lists `a/b.md`: the file is included once
      (src/lib.rs:1128-1141). */
  lemma DedupExample(cfg: Config, lib: Path, fs: FileSystem, a: string, b: string, file: string)
    requires a == "A" && b == "B" && file == "a/b.md"
    requires cfg.profiles == map[a := [file], b := [a, file]]
    requires fs.Exists(JoinPath(lib, file))
    ensures Resolve(cfg, lib, fs, b, Empty) == Walk(Pass, State({JoinPath(lib, file)}, [], [JoinPath(lib, file)]))
  {
    var p := JoinPath(lib, file);
    assert EndsInMd(file) && !EndsInMd(a);
    var done := State({p}, [b], [p]);
    assert ResolveDeps(cfg, lib, fs, a, [], State({p}, [b, a], [p])) == Walk(Pass, State({p}, [b, a], [p]));
    assert ResolveDeps(cfg, lib, fs, a, [file], State({}, [b, a], [])) == Walk(Pass, State({p}, [b, a], [p]));
    assert a !in [b] && [b, a][..1] == [b] && [b] + [a] == [b, a] && cfg.profiles[a] == [file];
    assert Resolve(cfg, lib, fs, a, State({}, [b], [])) == Walk(Pass, done);
    assert Include(done, p) == done && [file][1..] == [];
    assert ResolveDeps(cfg, lib, fs, b, [file], done) == Walk(Pass, done);
    assert [a, file][1..] == [file];
    assert ResolveDeps(cfg, lib, fs, b, [a, file], State({}, [b], [])) == Walk(Pass, done);
    assert [b][..0] == [] && Empty.stack + [b] == [b] && cfg.profiles[b] == [a, file];
  }

  /** `child` lists the existing `x` only. */
  lemma ResolveLeaf(cfg: Config, lib: Path, fs: FileSystem, child: string, root: string, x: string)
    requires child != root && EndsInMd(x) && !EndsInMd(child) && fs.Exists(JoinPath(lib, x))
    requires child in cfg.profiles && cfg.profiles[child] == [x]
    ensures Resolve(cfg, lib, fs, child, State({}, [root], []))
      == Walk(Pass, State({JoinPath(lib, x)}, [root], [JoinPath(lib, x)]))
  {
    var px := JoinPath(lib, x);
    assert ResolveDeps(cfg, lib, fs, child, [], State({px}, [root, child], [px])) == Walk(Pass, State({px}, [root, child], [px]));
    assert ResolveDeps(cfg, lib, fs, child, [x], State({}, [root, child], [])) == Walk(Pass, State({px}, [root, child], [px]));
    assert child !in [root] && [root, child][..1] == [root] && [root] + [child] == [root, child];
  }

  /** After `child`, `root`'s remaining `y` and `x`: `y` is new, `x` is already seen. */
  lemma ResolveRest(cfg: Config, lib: Path, fs: FileSystem, root: string, x: string, y: string, px: Path, py: Path)
    requires EndsInMd(x) && EndsInMd(y) && px == JoinPath(lib, x) && py == JoinPath(lib, y)
    requires px != py && fs.Exists(px) && fs.Exists(py)
    ensures ResolveDeps(cfg, lib, fs, root, [y, x], State({px}, [root], [px]))
      == Walk(Pass, State({px, py}, [root], [px, py]))
  {
    var one := State({px}, [root], [px]);
    var two := State({px, py}, [root], [px, py]);
    assert [x][1..] == [] && Include(two, px) == two;
    assert ResolveDeps(cfg, lib, fs, root, [x], two) == Walk(Pass, two);
    assert py !in one.seen && Include(one, py) == two && [y, x][1..] == [x];
  }

  /** `root` lists `child`, the file `y` and the file `x`, and `child` lists `x`. */
  lemma ResolveNested(cfg: Config, lib: Path, fs: FileSystem, child: string, root: string, x: string, y: string)
    requires child != root && EndsInMd(x) && EndsInMd(y) && !EndsInMd(child)
    requires JoinPath(lib, x) != JoinPath(lib, y) && fs.Exists(JoinPath(lib, x)) && fs.Exists(JoinPath(lib, y))
    requires child in cfg.profiles && cfg.profiles[child] == [x]
    requires root in cfg.profiles && cfg.profiles[root] == [child, y, x]
    ensures Resolve(cfg, lib, fs, root, Empty)
      == Walk(Pass, State({JoinPath(lib, x), JoinPath(lib, y)}, [], [JoinPath(lib, x), JoinPath(lib, y)]))
  {
    var px, py := JoinPath(lib, x), JoinPath(lib, y);
    ResolveLeaf(cfg, lib, fs, child, root, x);
    ResolveRest(cfg, lib, fs, root, x, y, px, py);
    var two := State({px, py}, [root], [px, py]);
    assert [child, y, x][0] == child && [child, y, x][1..] == [y, x];
    assert ResolveDeps(cfg, lib, fs, root, [child, y, x], State({}, [root], [])) == Walk(Pass, two);
    assert [root][..0] == [] && Empty.stack + [root] == [root];
  }

  /** `root` lists `child`, `f/y.md` and `a/x.md`, and `child` lists `a/x.md`: the files come
      out depth first, `a/x.md` once (src/lib.rs:1201-1220). */
  lemma NestedExample(cfg: Config, lib: Path, fs: FileSystem, child: string, root: string, x: string, y: string)
    requires child == "child" && root == "root" && x == "a/x.md" && y == "f/y.md"
    requires cfg.profiles == map[child := [x], root := [child, y, x]]
    requires fs.Exists(JoinPath(lib, x)) && fs.Exists(JoinPath(lib, y))
    ensures Resolve(cfg, lib, fs, root, Empty)
      == Walk(Pass, State({JoinPath(lib, x), JoinPath(lib, y)}, [], [JoinPath(lib, x), JoinPath(lib, y)]))
  {
    assert EndsInMd(x) && EndsInMd(y) && !EndsInMd(child);
    assert x[0] != y[0];
    JoinPathDistinct(lib, x, y);
    ResolveNested(cfg, lib, fs, child, root, x, y);
  }
}
