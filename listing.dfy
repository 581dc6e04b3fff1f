/** `list_profiles` (src/lib.rs:665-672): the profile names, sorted with `String`'s order, each
    written on a line of its own with `writeln!`. The names are collected in the map's iteration
    order; the lemmas show that sorting removes every trace of that order. */
module Listing {
  import opened Wrappers
  import opened Profiles
  import opened Resolver
  import opened Keys
  import opened Output

  /** `a < b` for `String`: lexicographic, a proper prefix first. */
  predicate Below(a: string, b: string)
    decreases |a|
  {
    if a == [] then b != []
    else if b == [] then false
    else if a[0] != b[0] then a[0] < b[0]
    else Below(a[1..], b[1..])
  }

  lemma {:induction false} BelowIrreflexive(a: string)
    ensures !Below(a, a)
    decreases |a|
  {
    if a != [] {
      BelowIrreflexive(a[1..]);
    }
  }

  lemma {:induction false} BelowTransitive(a: string, b: string, c: string)
    requires Below(a, b) && Below(b, c)
    ensures Below(a, c)
    decreases |a|
  {
    if a != [] && a[0] == b[0] && b[0] == c[0] {
      BelowTransitive(a[1..], b[1..], c[1..]);
    }
  }

  lemma {:induction false} BelowTotal(a: string, b: string)
    requires a != b
    ensures Below(a, b) || Below(b, a)
    decreases |a|
  {
    if a != [] && b != [] && a[0] == b[0] {
      assert a == [a[0]] + a[1..] && b == [b[0]] + b[1..];
      BelowTotal(a[1..], b[1..]);
    }
  }

  lemma BelowAsymmetric(a: string, b: string)
    requires Below(a, b)
    ensures !Below(b, a)
  {
    if Below(b, a) {
      BelowTransitive(a, b, a);
      BelowIrreflexive(a);
    }
  }

  predicate Ascending(s: seq<string>) {
    forall i, j :: 0 <= i < j < |s| ==> Below(s[i], s[j])
  }

  /** `x` put into its place in an ascending list. */
  function Insert(x: string, s: seq<string>): (r: seq<string>)
    requires Ascending(s) && x !in s
    ensures Ascending(r) && multiset(r) == multiset(s) + multiset{x}
    decreases |s|
  {
    if s == [] then [x]
    else if Below(x, s[0]) then
      InsertFirst(x, s);
      [x] + s
    else
      var rest := Insert(x, s[1..]);
      BelowTotal(x, s[0]);
      InsertLater(x, s, rest);
      assert s == [s[0]] + s[1..];
      [s[0]] + rest
  }

  lemma AscendingCons(h: string, t: seq<string>)
    requires Ascending(t) && forall y :: y in t ==> Below(h, y)
    ensures Ascending([h] + t)
  {
    forall i, j | 0 <= i < j < |[h] + t| ensures Below(([h] + t)[i], ([h] + t)[j]) {
      assert ([h] + t)[j] == t[j - 1];
      if i > 0 {
        assert ([h] + t)[i] == t[i - 1];
      } else {
        assert t[j - 1] in t;
      }
    }
  }

  lemma InsertFirst(x: string, s: seq<string>)
    requires Ascending(s) && s != [] && Below(x, s[0])
    ensures Ascending([x] + s)
  {
    forall y | y in s ensures Below(x, y) {
      var j :| 0 <= j < |s| && s[j] == y;
      if j > 0 {
        BelowTransitive(x, s[0], s[j]);
      }
    }
    AscendingCons(x, s);
  }

  lemma InsertLater(x: string, s: seq<string>, rest: seq<string>)
    requires Ascending(s) && s != [] && Below(s[0], x)
    requires Ascending(rest) && multiset(rest) == multiset(s[1..]) + multiset{x}
    ensures Ascending([s[0]] + rest)
  {
    AscendingTail(s);
    forall y | y in rest ensures Below(s[0], y) {
      assert y in multiset(rest);
      if y != x {
        assert y in multiset(s[1..]);
      }
    }
    AscendingCons(s[0], rest);
  }


  /** `names.sort()`, for names that are all different. */
  function Sort(s: seq<string>): (r: seq<string>)
    requires NoDup(s)
    ensures Ascending(r) && multiset(r) == multiset(s)
    decreases |s|
  {
    if s == [] then []
    else
      var init := s[..|s| - 1];
      assert s == init + [s[|s| - 1]];
      var sorted := Sort(init);
      assert s[|s| - 1] !in multiset(sorted);
      Insert(s[|s| - 1], sorted)
  }

  lemma AscendingTail(s: seq<string>)
    requires Ascending(s) && s != []
    ensures Ascending(s[1..]) && forall y :: y in s[1..] ==> Below(s[0], y)
  {
    forall y | y in s[1..] ensures Below(s[0], y) {
      var j :| 0 <= j < |s[1..]| && s[1..][j] == y;
      assert s[j + 1] == y;
    }
  }

  /** Two ascending lists of the same names are the same list: the order `list_profiles`
      prints in depends only on the set of keys. */
  lemma {:induction false} AscendingUnique(s: seq<string>, t: seq<string>)
    requires Ascending(s) && Ascending(t) && multiset(s) == multiset(t)
    ensures s == t
    decreases |s|
  {
    if s == [] {
      assert |multiset(t)| == 0;
    } else {
      assert |multiset(t)| != 0;
      AscendingTail(s);
      AscendingTail(t);
      assert s[0] == t[0] by {
        assert s[0] in multiset(t) && t[0] in multiset(s);
        assert s[0] in t && t[0] in s;
        if s[0] != t[0] {
          assert s[0] in t[1..] && t[0] in s[1..] by {
            assert t == [t[0]] + t[1..] && s == [s[0]] + s[1..];
          }
          BelowAsymmetric(s[0], t[0]);
        }
      }
      HeadsAgree(s, t);
      AscendingUnique(s[1..], t[1..]);
      assert s == [s[0]] + s[1..] && t == [t[0]] + t[1..];
    }
  }

  /** The chunks `writeln!(w, "{n}")` writes for each name in turn: the name, then `\n`. */
  function NameLines(names: seq<string>): seq<string>
    decreases |names|
  {
    if names == [] then [] else [names[0], "\n"] + NameLines(names[1..])
  }

  /** What `list_profiles` writes to a writer in state `s`: each key on a line of its own, in
      ascending order; `order` is any iteration order of the map. */
  function Listing(cfg: Config, order: seq<string>, s: Stream, failOn: nat, failure: string): Emitted
    requires Enumerates(order, cfg.profiles.Keys)
  {
    PutAll(s, failOn, failure, NameLines(Sort(order)))
  }

  /** `e` is what `list_profiles` leaves when the map yields its keys in `order`. */
  predicate ListedAs(cfg: Config, order: seq<string>, s: Stream, failOn: nat, failure: string, e: Emitted) {
    Enumerates(order, cfg.profiles.Keys) && e == Listing(cfg, order, s, failOn, failure)
  }

  /** Writing two chunks and then more. */
  lemma PutAllPair(s: Stream, failOn: nat, failure: string, x: string, y: string, more: seq<string>)
    ensures PutAll(s, failOn, failure, [x, y] + more) ==
      var e := Put(s, failOn, failure, x);
      if e.outcome.Fail? then e
      else
        var f := Put(e.stream, failOn, failure, y);
        if f.outcome.Fail? then f else PutAll(f.stream, failOn, failure, more)
  {
    assert ([x, y] + more)[0] == x && ([x, y] + more)[1..] == [y] + more;
    assert ([y] + more)[0] == y && ([y] + more)[1..] == more;
  }

  method ListProfiles(cfg: Config, w: Sink) returns (r: Outcome<string>)
    modifies w
    ensures exists order :: ListedAs(cfg, order, old(w.State()), w.failOn, w.failure, Emitted(r, w.State()))
  {
    var order := KeyOrder(cfg);
    var names := Sort(order);
    ghost var start := w.State();
    for i := 0 to |names|
      invariant Listing(cfg, order, start, w.failOn, w.failure) == PutAll(w.State(), w.failOn, w.failure, NameLines(names[i..]))
    {
      assert NameLines(names[i..]) == [names[i], "\n"] + NameLines(names[i + 1..]) by {
        assert names[i..][0] == names[i] && names[i..][1..] == names[i + 1..];
      }
      PutAllPair(w.State(), w.failOn, w.failure, names[i], "\n", NameLines(names[i + 1..]));
      r := w.WriteAll(names[i]);
      if r.Fail? {
        assert ListedAs(cfg, order, start, w.failOn, w.failure, Emitted(r, w.State()));
        return;
      }
      r := w.WriteAll("\n");
      if r.Fail? {
        assert ListedAs(cfg, order, start, w.failOn, w.failure, Emitted(r, w.State()));
        return;
      }
    }
    assert names[|names|..] == [];
    r := Pass;
    assert ListedAs(cfg, order, start, w.failOn, w.failure, Emitted(r, w.State()));
  }

  /** On a writer that cannot fail, `list_profiles` writes every key followed by `\n`, in
      ascending order, the same whatever the map's iteration order. */
  lemma ListingReliable(cfg: Config, order: seq<string>, other: seq<string>, s: Stream, failOn: nat, failure: string)
    requires Enumerates(order, cfg.profiles.Keys) && Enumerates(other, cfg.profiles.Keys)
    requires Reliable(s, failOn)
    ensures Listing(cfg, order, s, failOn, failure) == Listing(cfg, other, s, failOn, failure)
    ensures Listing(cfg, order, s, failOn, failure).outcome == Pass
    ensures Listing(cfg, order, s, failOn, failure).stream.written == s.written + Concat(NameLines(Sort(order)))
    ensures Ascending(Sort(order)) && multiset(Sort(order)) == multiset(order)
  {
    EnumerationsPermuted(order, other, cfg.profiles.Keys);
    AscendingUnique(Sort(order), Sort(other));
    PutAllReliable(s, failOn, failure, NameLines(Sort(order)));
  }

  /** Profiles `b` and `a` are listed as `a\nb\n` (src/lib.rs:1161-1170). */
  lemma ListExample(cfg: Config, a: string, b: string, order: seq<string>, failure: string, e: Emitted)
    requires a == "a" && b == "b"
    requires cfg.profiles == map[b := [], a := []]
    requires ListedAs(cfg, order, Stream([], 0), 0, failure, e)
    ensures e == Emitted(Pass, Stream("a\nb\n", 4))
  {
    ExampleFacts(cfg, a, b);
    ListTwo(cfg, a, b, order, failure, e);
  }

  lemma ExampleFacts(cfg: Config, a: string, b: string)
    requires a == "a" && b == "b"
    requires cfg.profiles == map[b := [], a := []]
    ensures a != [] && b != [] && Below(a, b) && cfg.profiles.Keys == {a, b}
    ensures a + "\n" + b + "\n" == "a\nb\n"
  {
    assert Below(a, b) by {
      assert a[0] == 'a' && b[0] == 'b';
    }
  }

  lemma ListTwo(cfg: Config, a: string, b: string, order: seq<string>, failure: string, e: Emitted)
    requires a != [] && b != [] && Below(a, b) && cfg.profiles.Keys == {a, b}
    requires ListedAs(cfg, order, Stream([], 0), 0, failure, e)
    ensures e == Emitted(Pass, Stream(a + "\n" + b + "\n", 4))
  {
    SortTwo(order, a, b);
    NameLinesTwo(a, b);
    TwoNamesWritten(a, b, failure);
  }

  lemma SortTwo(order: seq<string>, a: string, b: string)
    requires Below(a, b) && Enumerates(order, {a, b})
    ensures Sort(order) == [a, b]
  {
    BelowIrreflexive(a);
    TwoKeys(order, a, b);
    assert multiset(order) == multiset([a, b]) by {
      if order == [b, a] {
        assert [b, a] == [b] + [a] && [a, b] == [a] + [b];
      }
    }
    assert Ascending([a, b]);
    AscendingUnique(Sort(order), [a, b]);
  }

  lemma NameLinesTwo(a: string, b: string)
    ensures NameLines([a, b]) == [a, "\n"] + [b, "\n"]
  {
    assert [a, b][1..] == [b] && [b][1..] == [];
    assert NameLines([b]) == [b, "\n"];
  }

  /** Two non-empty names written to a writer that never fails. */
  lemma TwoNamesWritten(a: string, b: string, failure: string)
    requires a != [] && b != []
    ensures PutAll(Stream([], 0), 0, failure, [a, "\n"] + [b, "\n"]) == Emitted(Pass, Stream(a + "\n" + b + "\n", 4))
  {
    var s0, s1, s2 := Stream([], 0), Stream(a + "\n", 2), Stream(a + "\n" + b + "\n", 4);
    PutAllPair(s0, 0, failure, a, "\n", [b, "\n"]);
    assert Put(s0, 0, failure, a) == Emitted(Pass, Stream(a, 1));
    assert Put(Stream(a, 1), 0, failure, "\n") == Emitted(Pass, s1);
    PutAllPair(s1, 0, failure, b, "\n", []);
    assert [b, "\n"] + [] == [b, "\n"];
    assert Put(s1, 0, failure, b) == Emitted(Pass, Stream(a + "\n" + b, 3));
    assert Put(Stream(a + "\n" + b, 3), 0, failure, "\n") == Emitted(Pass, s2);
  }
}
