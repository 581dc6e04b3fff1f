/** `validate` (src/lib.rs:694-736): every dependency of every profile must be an existing
    `.md` file or a profile, and no profile may be part of a cycle. The messages are collected
    in the order the map yields its keys; the result is stated for every such order, and the
    lemmas show that the order changes only the order of the messages. */
module Validation {
  import opened Wrappers
  import opened Text
  import opened Profiles
  import opened Resolver
  import opened Keys

  /** The messages collected for `xs` in turn, `f(x)` for each element `x`. */
  function Gather(f: string -> seq<string>, xs: seq<string>): seq<string>
    decreases |xs|
  {
    if xs == [] then [] else Gather(f, xs[..|xs| - 1]) + f(xs[|xs| - 1])
  }

  /** The problem the first loop reports for dependency `d` of `profile`: a `.md` file whose
      joined path does not exist, or another token that is not a profile. */
  function DepProblem(cfg: Config, lib: Path, fs: FileSystem, profile: string, d: string): seq<string> {
    if EndsInMd(d) then
      if fs.Exists(JoinPath(lib, d)) then [] else [MissingFileMessage(JoinPath(lib, d), profile)]
    else if d in cfg.profiles then []
    else [UnknownDependencyMessage(d, profile)]
  }

  function DepCheck(cfg: Config, lib: Path, fs: FileSystem, profile: string): string -> seq<string> {
    d => DepProblem(cfg, lib, fs, profile, d)
  }

  /** The first loop's messages for profile `name`. */
  function ReferenceProblems(cfg: Config, lib: Path, fs: FileSystem, name: string): seq<string> {
    if name in cfg.profiles then Gather(DepCheck(cfg, lib, fs, name), cfg.profiles[name]) else []
  }

  /** The second loop's message for `name`: the cycle a fresh `resolve_profile` reports. */
  function CycleProblem(cfg: Config, lib: Path, fs: FileSystem, name: string): seq<string> {
    var r := Resolve(cfg, lib, fs, name, Empty).outcome;
    if r.Fail? && r.error.Cycle? then [CycleMessage(r.error.chain)] else []
  }

  function References(cfg: Config, lib: Path, fs: FileSystem): string -> seq<string> {
    name => ReferenceProblems(cfg, lib, fs, name)
  }

  function Cycles(cfg: Config, lib: Path, fs: FileSystem): string -> seq<string> {
    name => CycleProblem(cfg, lib, fs, name)
  }

  /** The messages `validate` collects when the map yields its keys in `order`: the reference
      problems of every profile, then every cycle. */
  function Problems(cfg: Config, lib: Path, fs: FileSystem, order: seq<string>): seq<string> {
    Gather(References(cfg, lib, fs), order) + Gather(Cycles(cfg, lib, fs), order)
  }

  /** `validate`'s result for the messages it collected. */
  function Report(errors: seq<string>): Outcome<string> {
    if errors == [] then Pass else Fail(Join(errors, "\n"))
  }

  /** `r` is what `validate` returns when the map yields its keys in `order`. */
  predicate ValidatedAs(cfg: Config, lib: Path, fs: FileSystem, order: seq<string>, r: Outcome<string>) {
    Enumerates(order, cfg.profiles.Keys) && r == Report(Problems(cfg, lib, fs, order))
  }

  /** A dependency `validate` accepts: an existing `.md` file or a profile. */
  predicate DepOk(cfg: Config, lib: Path, fs: FileSystem, d: string) {
    if EndsInMd(d) then fs.Exists(JoinPath(lib, d)) else d in cfg.profiles
  }

  predicate IsCycle(r: Outcome<ResolveError>) {
    r.Fail? && r.error.Cycle?
  }

  /** A valid configuration: every `.md` dependency exists, every other dependency is a
      profile, and no profile's fresh resolution meets a cycle. */
  predicate Valid(cfg: Config, lib: Path, fs: FileSystem) {
    (forall p, d :: p in cfg.profiles && d in cfg.profiles[p] ==> DepOk(cfg, lib, fs, d))
    && (forall p :: p in cfg.profiles ==> !IsCycle(Resolve(cfg, lib, fs, p, Empty).outcome))
  }

  /** The inner loop of the first pass, over the dependencies of one profile. */
  method CheckDeps(cfg: Config, lib: Path, fs: FileSystem, profile: string, deps: seq<string>) returns (errors: seq<string>)
    ensures errors == Gather(DepCheck(cfg, lib, fs, profile), deps)
  {
    errors := [];
    for i := 0 to |deps|
      invariant errors == Gather(DepCheck(cfg, lib, fs, profile), deps[..i])
    {
      var dep := deps[i];
      assert deps[..i + 1][..i] == deps[..i];
      if EndsInMd(dep) {
        var path := JoinPath(lib, dep);
        if !fs.Exists(path) {
          errors := errors + [MissingFileMessage(path, profile)];
        }
      } else if dep !in cfg.profiles {
        errors := errors + [UnknownDependencyMessage(dep, profile)];
      }
    }
    assert deps[..|deps|] == deps;
  }

  /** The first pass, over the profiles in `order`. */
  method CheckReferences(cfg: Config, lib: Path, fs: FileSystem, order: seq<string>) returns (errors: seq<string>)
    requires Enumerates(order, cfg.profiles.Keys)
    ensures errors == Gather(References(cfg, lib, fs), order)
  {
    errors := [];
    for i := 0 to |order|
      invariant errors == Gather(References(cfg, lib, fs), order[..i])
    {
      var profile := order[i];
      assert order[..i + 1][..i] == order[..i];
      assert profile in cfg.profiles by {
        assert profile in Elems(order);
      }
      var found := CheckDeps(cfg, lib, fs, profile, cfg.profiles[profile]);
      errors := errors + found;
    }
    assert order[..|order|] == order;
  }

  /** The second pass: a fresh resolution of every profile, keeping the cycles. */
  method CheckCycles(cfg: Config, lib: Path, fs: FileSystem, order: seq<string>) returns (errors: seq<string>)
    ensures errors == Gather(Cycles(cfg, lib, fs), order)
  {
    errors := [];
    for i := 0 to |order|
      invariant errors == Gather(Cycles(cfg, lib, fs), order[..i])
    {
      var name := order[i];
      assert order[..i + 1][..i] == order[..i];
      var resolution := new Resolution();
      assert resolution.Snapshot() == Empty;
      var res := resolution.ResolveProfile(name, cfg, lib, fs);
      if res.Fail? && res.error.Cycle? {
        errors := errors + [CycleMessage(res.error.chain)];
      }
    }
    assert order[..|order|] == order;
  }

  method Validate(cfg: Config, lib: Path, fs: FileSystem) returns (r: Outcome<string>)
    ensures exists order :: ValidatedAs(cfg, lib, fs, order, r)
    ensures r.Pass? <==> Valid(cfg, lib, fs)
  {
    var order := KeyOrder(cfg);
    var errors := CheckReferences(cfg, lib, fs, order);
    var cycles := CheckCycles(cfg, lib, fs, order);
    errors := errors + cycles;
    r := if errors == [] then Pass else Fail(Join(errors, "\n"));
    assert ValidatedAs(cfg, lib, fs, order, r);
    ProblemsEmptyIff(cfg, lib, fs, order);
  }

  // ----- when validation passes -------------------------------------------------------------

  lemma EmptyConcat(a: seq<string>, b: seq<string>)
    ensures a + b == [] <==> a == [] && b == []
  {
    assert |a + b| == |a| + |b|;
  }

  /** Nothing is collected exactly when nothing is found for any element. */
  lemma {:induction false} GatherEmpty(f: string -> seq<string>, xs: seq<string>)
    ensures Gather(f, xs) == [] <==> forall x :: x in xs ==> f(x) == []
    decreases |xs|
  {
    if xs != [] {
      var init, last := xs[..|xs| - 1], xs[|xs| - 1];
      GatherEmpty(f, init);
      EmptyConcat(Gather(f, init), f(last));
      assert xs == init + [last];
      assert forall x :: x in xs <==> x in init || x == last;
    }
  }

  lemma DepsEmpty(cfg: Config, lib: Path, fs: FileSystem, p: string)
    requires p in cfg.profiles
    ensures ReferenceProblems(cfg, lib, fs, p) == [] <==> forall d :: d in cfg.profiles[p] ==> DepOk(cfg, lib, fs, d)
  {
    GatherEmpty(DepCheck(cfg, lib, fs, p), cfg.profiles[p]);
  }

  /** For any iteration order, `validate` collects no message exactly when the configuration
      is valid. */
  lemma ProblemsEmptyIff(cfg: Config, lib: Path, fs: FileSystem, order: seq<string>)
    requires Enumerates(order, cfg.profiles.Keys)
    ensures Problems(cfg, lib, fs, order) == [] <==> Valid(cfg, lib, fs)
  {
    GatherEmpty(References(cfg, lib, fs), order);
    GatherEmpty(Cycles(cfg, lib, fs), order);
    EmptyConcat(Gather(References(cfg, lib, fs), order), Gather(Cycles(cfg, lib, fs), order));
    assert forall x :: x in order <==> x in cfg.profiles by {
      assert forall x :: x in order <==> x in Elems(order);
    }
    forall p | p in cfg.profiles
      ensures ReferenceProblems(cfg, lib, fs, p) == [] <==> forall d :: d in cfg.profiles[p] ==> DepOk(cfg, lib, fs, d)
    {
      DepsEmpty(cfg, lib, fs, p);
    }
  }

  // ----- the messages do not depend on the iteration order -----------------------------------

  lemma {:induction false} GatherThen(f: string -> seq<string>, a: seq<string>, b: seq<string>)
    ensures Gather(f, a + b) == Gather(f, a) + Gather(f, b)
    decreases |b|
  {
    if b == [] {
      assert a + b == a;
    } else {
      var init, last := b[..|b| - 1], b[|b| - 1];
      assert (a + b)[..|a + b| - 1] == a + init && (a + b)[|a + b| - 1] == last;
      GatherThen(f, a, init);
      assert Gather(f, a + b) == Gather(f, a + init) + f(last);
      assert Gather(f, b) == Gather(f, init) + f(last);
    }
  }

  /** Adding the same element to two orders whose messages are permutations of each other. */
  lemma GatherPermutedStep(f: string -> seq<string>, init: seq<string>, a: seq<string>, x: string, b: seq<string>)
    requires multiset(Gather(f, init)) == multiset(Gather(f, a + b))
    ensures multiset(Gather(f, init + [x])) == multiset(Gather(f, a + [x] + b))
  {
    GatherThen(f, a, b);
    GatherThen(f, a + [x], b);
    assert (a + [x])[..|a + [x]| - 1] == a;
    assert (init + [x])[..|init + [x]| - 1] == init;
  }

  /** Taking the elements in another order permutes the messages. */
  lemma {:induction false} GatherPermuted(f: string -> seq<string>, o: seq<string>, p: seq<string>)
    requires multiset(o) == multiset(p)
    ensures multiset(Gather(f, o)) == multiset(Gather(f, p))
    decreases |o|
  {
    if o == [] {
      assert |multiset(p)| == 0;
    } else {
      var x, init := o[|o| - 1], o[..|o| - 1];
      assert o == init + [x];
      assert x in multiset(p);
      var k :| 0 <= k < |p| && p[k] == x;
      var a, b := p[..k], p[k + 1..];
      assert p == a + [x] + b;
      RemoveBoth(o, p, k);
      GatherPermuted(f, init, a + b);
      GatherPermutedStep(f, init, a, x, b);
    }
  }

  /** Whatever order the map yields its keys in, `validate` collects the same messages, each
      as often. */
  lemma ProblemsOrderFree(cfg: Config, lib: Path, fs: FileSystem, o: seq<string>, p: seq<string>)
    requires Enumerates(o, cfg.profiles.Keys) && Enumerates(p, cfg.profiles.Keys)
    ensures multiset(Problems(cfg, lib, fs, o)) == multiset(Problems(cfg, lib, fs, p))
  {
    EnumerationsPermuted(o, p, cfg.profiles.Keys);
    GatherPermuted(References(cfg, lib, fs), o, p);
    GatherPermuted(Cycles(cfg, lib, fs), o, p);
  }

  // ----- scenarios --------------------------------------------------------------------------

  /** `A` lists `B` and `B` lists `A`: resolving `A` from scratch meets the cycle
      `A -> B -> A`, so validation fails (src/lib.rs:1172-1185). */
  lemma CycleExample(cfg: Config, lib: Path, fs: FileSystem, a: string, b: string, order: seq<string>, r: Outcome<string>)
    requires a == "A" && b == "B"
    requires cfg.profiles == map[a := [b], b := [a]]
    requires ValidatedAs(cfg, lib, fs, order, r)
    ensures CycleProblem(cfg, lib, fs, a) == [CycleMessage([a, b, a])]
    ensures r.Fail?
  {
    CycleFromA(cfg, lib, fs, a, b);
    assert a in cfg.profiles && IsCycle(Resolve(cfg, lib, fs, a, Empty).outcome);
    assert !Valid(cfg, lib, fs);
    ProblemsEmptyIff(cfg, lib, fs, order);
  }

  lemma CycleFromA(cfg: Config, lib: Path, fs: FileSystem, a: string, b: string)
    requires a == "A" && b == "B"
    requires cfg.profiles == map[a := [b], b := [a]]
    ensures Resolve(cfg, lib, fs, a, Empty).outcome == Fail(Cycle([a, b, a]))
  {
    CycleFromB(cfg, lib, fs, a, b);
    assert !EndsInMd(b);
    assert ResolveDeps(cfg, lib, fs, a, [b], State({}, [a], [])).outcome == Fail(Cycle([a, b, a]));
    assert Empty.stack + [a] == [a] && cfg.profiles[a] == [b];
  }

  lemma CycleFromB(cfg: Config, lib: Path, fs: FileSystem, a: string, b: string)
    requires a == "A" && b == "B"
    requires cfg.profiles == map[a := [b], b := [a]]
    ensures Resolve(cfg, lib, fs, b, State({}, [a], [])).outcome == Fail(Cycle([a, b, a]))
  {
    assert !EndsInMd(a);
    var pushed := State({}, [a, b], []);
    assert a in pushed.stack && pushed.stack + [a] == [a, b, a];
    assert Resolve(cfg, lib, fs, a, pushed) == Walk(Fail(Cycle([a, b, a])), pushed);
    assert ResolveDeps(cfg, lib, fs, b, [a], pushed).outcome == Fail(Cycle([a, b, a]));
    assert b !in [a] && [a] + [b] == [a, b] && cfg.profiles[b] == [a];
  }

  /** `root` lists a missing file and an unknown profile: `validate` reports the file, then
      the profile, on two lines (src/lib.rs:1519-1550). */
  lemma MissingAndUnknownExample(cfg: Config, lib: Path, fs: FileSystem, root: string, file: string, other: string,
                                 order: seq<string>, r: Outcome<string>)
    requires root == "root" && file == "missing.md" && other == "unknown_profile"
    requires cfg.profiles == map[root := [file, other]]
    requires !fs.Exists(JoinPath(lib, file))
    requires ValidatedAs(cfg, lib, fs, order, r)
    ensures r == Fail(MissingFileMessage(JoinPath(lib, file), root) + "\n" + UnknownDependencyMessage(other, root))
  {
    SingleKey(order, root);
    var m1, m2 := MissingFileMessage(JoinPath(lib, file), root), UnknownDependencyMessage(other, root);
    RootReferences(cfg, lib, fs, root, file, other);
    RootNoCycle(cfg, lib, fs, root, file, other);
    assert [root][..0] == [];
    assert Gather(References(cfg, lib, fs), [root]) == [m1, m2];
    assert Gather(Cycles(cfg, lib, fs), [root]) == [];
    assert Problems(cfg, lib, fs, [root]) == [m1, m2];
    assert [m1, m2] == [m1] + [m2];
    JoinCons(m1, [m2]);
  }

  lemma RootReferences(cfg: Config, lib: Path, fs: FileSystem, root: string, file: string, other: string)
    requires root == "root" && file == "missing.md" && other == "unknown_profile"
    requires cfg.profiles == map[root := [file, other]]
    requires !fs.Exists(JoinPath(lib, file))
    ensures ReferenceProblems(cfg, lib, fs, root) == [MissingFileMessage(JoinPath(lib, file), root), UnknownDependencyMessage(other, root)]
  {
    var m1, m2 := MissingFileMessage(JoinPath(lib, file), root), UnknownDependencyMessage(other, root);
    assert EndsInMd(file) && !EndsInMd(other) && other !in cfg.profiles;
    var deps := [file, other];
    assert deps[..1] == [file] && [file][..0] == [];
    assert DepProblem(cfg, lib, fs, root, file) == [m1];
    assert DepProblem(cfg, lib, fs, root, other) == [m2];
    assert Gather(DepCheck(cfg, lib, fs, root), [file]) == [m1];
    assert Gather(DepCheck(cfg, lib, fs, root), deps) == [m1, m2];
  }

  lemma RootNoCycle(cfg: Config, lib: Path, fs: FileSystem, root: string, file: string, other: string)
    requires root == "root" && file == "missing.md" && other == "unknown_profile"
    requires cfg.profiles == map[root := [file, other]]
    requires !fs.Exists(JoinPath(lib, file))
    ensures CycleProblem(cfg, lib, fs, root) == []
  {
    assert EndsInMd(file);
    var pushed := State({}, [root], []);
    assert ResolveDeps(cfg, lib, fs, root, [file, other], pushed).outcome == Fail(MissingFile(JoinPath(lib, file), root));
    assert Empty.stack + [root] == [root];
    assert !IsCycle(Resolve(cfg, lib, fs, root, Empty).outcome);
  }

  /** `p1` lists the existing `a.md`, and `p2` lists `p1` and the existing `b.md`: `validate`
      passes (src/lib.rs:1091-1103). */
  lemma ValidExample(cfg: Config, lib: Path, fs: FileSystem, p1: string, p2: string, a: string, b: string,
                     order: seq<string>, r: Outcome<string>)
    requires p1 == "p1" && p2 == "p2" && a == "a.md" && b == "b.md"
    requires cfg.profiles == map[p1 := [a], p2 := [p1, b]]
    requires fs.Exists(JoinPath(lib, a)) && fs.Exists(JoinPath(lib, b))
    requires ValidatedAs(cfg, lib, fs, order, r)
    ensures r == Pass
  {
    assert EndsInMd(a) && EndsInMd(b) && !EndsInMd(p1);
    TwoLevelsValid(cfg, lib, fs, p1, p2, a, b);
    ProblemsEmptyIff(cfg, lib, fs, order);
  }

  lemma TwoLevelsValid(cfg: Config, lib: Path, fs: FileSystem, p1: string, p2: string, a: string, b: string)
    requires p1 != p2 && EndsInMd(a) && EndsInMd(b) && !EndsInMd(p1)
    requires cfg.profiles == map[p1 := [a], p2 := [p1, b]]
    requires fs.Exists(JoinPath(lib, a)) && fs.Exists(JoinPath(lib, b))
    ensures Valid(cfg, lib, fs)
  {
    ValidDeps(cfg, lib, fs, p1, p2, a, b);
    forall p | p in cfg.profiles ensures !IsCycle(Resolve(cfg, lib, fs, p, Empty).outcome) {
      if p == p1 {
        LeafResolves(cfg, lib, fs, p1, a);
      } else {
        ParentResolves(cfg, lib, fs, p1, p2, a, b);
      }
    }
  }

  lemma ValidDeps(cfg: Config, lib: Path, fs: FileSystem, p1: string, p2: string, a: string, b: string)
    requires p1 != p2 && EndsInMd(a) && EndsInMd(b) && !EndsInMd(p1)
    requires cfg.profiles == map[p1 := [a], p2 := [p1, b]]
    requires fs.Exists(JoinPath(lib, a)) && fs.Exists(JoinPath(lib, b))
    ensures forall p, d :: p in cfg.profiles && d in cfg.profiles[p] ==> DepOk(cfg, lib, fs, d)
  {
    forall p, d | p in cfg.profiles && d in cfg.profiles[p] ensures DepOk(cfg, lib, fs, d) {
      assert d == a || d == p1 || d == b;
    }
  }

  /** A profile listing only the existing file `a` resolves from scratch. */
  lemma LeafResolves(cfg: Config, lib: Path, fs: FileSystem, p1: string, a: string)
    requires EndsInMd(a) && fs.Exists(JoinPath(lib, a))
    requires p1 in cfg.profiles && cfg.profiles[p1] == [a]
    ensures Resolve(cfg, lib, fs, p1, Empty).outcome == Pass
  {
    var pa := JoinPath(lib, a);
    assert ResolveDeps(cfg, lib, fs, p1, [], State({pa}, [p1], [pa])) == Walk(Pass, State({pa}, [p1], [pa]));
    assert ResolveDeps(cfg, lib, fs, p1, [a], State({}, [p1], [])).outcome == Pass;
    assert Empty.stack + [p1] == [p1];
  }

  /** `p2`, listing `p1` and the existing `b`, resolves from scratch. */
  lemma ParentResolves(cfg: Config, lib: Path, fs: FileSystem, p1: string, p2: string, a: string, b: string)
    requires p1 != p2 && EndsInMd(a) && EndsInMd(b) && !EndsInMd(p1)
    requires p1 in cfg.profiles && cfg.profiles[p1] == [a] && p2 in cfg.profiles && cfg.profiles[p2] == [p1, b]
    requires fs.Exists(JoinPath(lib, a)) && fs.Exists(JoinPath(lib, b))
    ensures Resolve(cfg, lib, fs, p2, Empty).outcome == Pass
  {
    var pa, pb := JoinPath(lib, a), JoinPath(lib, b);
    ResolveLeaf(cfg, lib, fs, p1, p2, a);
    var one := State({pa}, [p2], [pa]);
    var two := Include(one, pb);
    assert ResolveDeps(cfg, lib, fs, p2, [], two) == Walk(Pass, two);
    assert ResolveDeps(cfg, lib, fs, p2, [b], one).outcome == Pass;
    assert [p1, b][1..] == [b];
    assert ResolveDeps(cfg, lib, fs, p2, [p1, b], State({}, [p2], [])).outcome == Pass;
    assert Empty.stack + [p2] == [p2];
  }

  /** `root` lists `nope`, which is neither a file nor a profile: `validate` reports it
      (src/lib.rs:1104-1109). */
  lemma UnknownExample(cfg: Config, lib: Path, fs: FileSystem, root: string, nope: string,
                       order: seq<string>, r: Outcome<string>)
    requires root == "root" && nope == "nope"
    requires cfg.profiles == map[root := [nope]]
    requires ValidatedAs(cfg, lib, fs, order, r)
    ensures r == Fail(UnknownDependencyMessage(nope, root))
  {
    assert !EndsInMd(nope);
    UnknownOnly(cfg, lib, fs, root, nope, order, r);
  }

  lemma UnknownOnly(cfg: Config, lib: Path, fs: FileSystem, root: string, nope: string,
                    order: seq<string>, r: Outcome<string>)
    requires root != nope && !EndsInMd(nope)
    requires cfg.profiles == map[root := [nope]]
    requires ValidatedAs(cfg, lib, fs, order, r)
    ensures r == Fail(UnknownDependencyMessage(nope, root))
  {
    SingleKey(order, root);
    var m := UnknownDependencyMessage(nope, root);
    UnknownReference(cfg, lib, fs, root, nope);
    UnknownNoCycle(cfg, lib, fs, root, nope);
    assert [root][..0] == [] && [root][0] == root;
    assert Gather(References(cfg, lib, fs), [root]) == [] + [m];
    assert Gather(Cycles(cfg, lib, fs), [root]) == [] + [];
    assert Problems(cfg, lib, fs, [root]) == [m];
  }

  lemma UnknownReference(cfg: Config, lib: Path, fs: FileSystem, root: string, nope: string)
    requires root != nope && !EndsInMd(nope)
    requires cfg.profiles == map[root := [nope]]
    ensures ReferenceProblems(cfg, lib, fs, root) == [UnknownDependencyMessage(nope, root)]
  {
    var f := DepCheck(cfg, lib, fs, root);
    assert nope !in cfg.profiles && root in cfg.profiles;
    assert [nope][..0] == [] && [nope][0] == nope;
    assert f(nope) == [UnknownDependencyMessage(nope, root)];
    assert Gather(f, [nope]) == Gather(f, []) + f(nope);
  }

  lemma UnknownNoCycle(cfg: Config, lib: Path, fs: FileSystem, root: string, nope: string)
    requires root != nope && !EndsInMd(nope)
    requires cfg.profiles == map[root := [nope]]
    ensures CycleProblem(cfg, lib, fs, root) == []
  {
    var pushed := State({}, [root], []);
    assert nope !in pushed.stack;
    assert Resolve(cfg, lib, fs, nope, pushed).outcome == Fail(UnknownProfile(nope));
    assert ResolveDeps(cfg, lib, fs, root, [nope], pushed).outcome == Fail(UnknownProfile(nope));
    assert Empty.stack + [root] == [root];
  }
}
