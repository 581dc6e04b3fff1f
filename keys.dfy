/** The keys of the profile map (`HashMap<String, Vec<String>>`, src/lib.rs:25) in the order
    iteration yields them, which Rust leaves unspecified; and the facts about permutations the
    order-independence proofs share. */
module Keys {
  import opened Profiles
  import opened Resolver

  /** `order` lists each key once: one possible iteration order of the map. */
  predicate Enumerates(order: seq<string>, keys: set<string>) {
    NoDup(order) && Elems(order) == keys
  }

  /** Iterating over the map: each key once, in some order. */
  method KeyOrder(cfg: Config) returns (order: seq<string>)
    ensures Enumerates(order, cfg.profiles.Keys)
  {
    order := [];
    var rest := cfg.profiles.Keys;
    while rest != {}
      invariant NoDup(order) && Elems(order) + rest == cfg.profiles.Keys && Elems(order) !! rest
      decreases |rest|
    {
      var k :| k in rest;
      NoDupSnoc(order, k);
      order := order + [k];
      rest := rest - {k};
    }
  }

  lemma NoDupSnoc(o: seq<string>, x: string)
    requires NoDup(o) && x !in o
    ensures NoDup(o + [x]) && Elems(o + [x]) == Elems(o) + {x}
  {
  }

  lemma {:induction false} NoDupMultiset(o: seq<string>)
    requires NoDup(o)
    ensures forall x :: multiset(o)[x] == if x in o then 1 else 0
    decreases |o|
  {
    if o != [] {
      var init := o[..|o| - 1];
      assert o == init + [o[|o| - 1]];
      NoDupMultiset(init);
    }
  }

  /** Any two iteration orders are permutations of each other. */
  lemma EnumerationsPermuted(o: seq<string>, p: seq<string>, keys: set<string>)
    requires Enumerates(o, keys) && Enumerates(p, keys)
    ensures multiset(o) == multiset(p)
  {
    NoDupMultiset(o);
    NoDupMultiset(p);
    assert forall x :: x in o <==> x in p by {
      assert forall x :: x in o <==> x in Elems(o);
      assert forall x :: x in p <==> x in Elems(p);
    }
  }

  lemma {:induction false} NoDupCard(o: seq<string>)
    requires NoDup(o)
    ensures |Elems(o)| == |o|
    decreases |o|
  {
    if o != [] {
      var init, last := o[..|o| - 1], o[|o| - 1];
      assert o == init + [last];
      NoDupCard(init);
      assert Elems(o) == Elems(init) + {last};
    }
  }

  /** A map with one key has one iteration order. */
  lemma SingleKey(order: seq<string>, k: string)
    requires Enumerates(order, {k})
    ensures order == [k]
  {
    NoDupCard(order);
    assert order[0] in Elems(order);
  }

  /** A map with two keys has two iteration orders. */
  lemma TwoKeys(order: seq<string>, a: string, b: string)
    requires a != b && Enumerates(order, {a, b})
    ensures order == [a, b] || order == [b, a]
  {
    NoDupCard(order);
    assert |{a, b}| == 2;
    assert order[0] in Elems(order) && order[1] in Elems(order);
  }

  lemma Cancel<T>(a: multiset<T>, b: multiset<T>, x: T)
    requires a + multiset{x} == b + multiset{x}
    ensures a == b
  {
    assert forall y :: a[y] == (a + multiset{x})[y] - multiset{x}[y];
    assert forall y :: b[y] == (b + multiset{x})[y] - multiset{x}[y];
  }

  /** Removing the same element from two permutations of each other. */
  lemma RemoveBoth<T>(o: seq<T>, p: seq<T>, k: nat)
    requires multiset(o) == multiset(p) && o != [] && k < |p| && p[k] == o[|o| - 1]
    ensures multiset(o[..|o| - 1]) == multiset(p[..k] + p[k + 1..])
  {
    assert o == o[..|o| - 1] + [o[|o| - 1]];
    assert p == p[..k] + [p[k]] + p[k + 1..];
    var a, b := multiset(o[..|o| - 1]), multiset(p[..k] + p[k + 1..]);
    assert a + multiset{p[k]} == b + multiset{p[k]};
    Cancel(a, b, p[k]);
  }

  lemma HeadsAgree<T>(s: seq<T>, t: seq<T>)
    requires multiset(s) == multiset(t) && s != [] && s[0] == t[0]
    ensures multiset(s[1..]) == multiset(t[1..])
  {
    assert s == [s[0]] + s[1..];
    assert t == [t[0]] + t[1..];
    assert multiset(s) == multiset(s[1..]) + multiset{s[0]};
    assert multiset(t) == multiset(t[1..]) + multiset{s[0]};
    Cancel(multiset(s[1..]), multiset(t[1..]), s[0]);
  }
}
