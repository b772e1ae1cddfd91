/**
 * Whole-tree rewrites that say what a loop of single-element mutations has done
 * once it has visited every element a `find_all` returned: `Reclass` rewrites the
 * class list of every element a query selects, `Prune` removes every selected
 * element together with its subtree (`decompose`, `extract`). `AgreeOn` says two
 * queries select the same elements of a tree, which is how "the ids the loop
 * collected" is turned back into "the elements the search describes".
 */
module Rewrites {
  import opened Wrappers
  import opened Tree
  import opened Edits

  type ClassUpdate = Option<seq<string>> -> Option<seq<string>>

  /** Every element matching `q` (judged on the original element) gets `f` of its classes. */
  function Reclass(ns: seq<Node>, q: Query, f: ClassUpdate): (r: seq<Node>)
    ensures |r| == |ns|
  {
    if ns == [] then [] else [ReclassIn(ns[0], q, f)] + Reclass(ns[1..], q, f)
  }

  function ReclassIn(n: Node, q: Query, f: ClassUpdate): Node
  {
    match n
    case Text(_) => n
    case Element(_, _, c, _, cs) =>
      var n' := n.(children := Reclass(cs, q, f));
      if Matches(q, n) then n'.(classes := f(c)) else n'
  }

  /** Every element matching `q` is removed together with everything below it. */
  function Prune(ns: seq<Node>, q: Query): seq<Node>
  {
    if ns == [] then []
    else (if Matches(q, ns[0]) then [] else [PruneIn(ns[0], q)]) + Prune(ns[1..], q)
  }

  function PruneIn(n: Node, q: Query): Node
  {
    match n
    case Text(_) => n
    case Element(_, _, _, _, cs) => n.(children := Prune(cs, q))
  }

  /** `q1` and `q2` select the same elements of the tree. */
  predicate AgreeOn(ns: seq<Node>, q1: Query, q2: Query)
  {
    ns == [] || (AgreeOnIn(ns[0], q1, q2) && AgreeOn(ns[1..], q1, q2))
  }

  predicate AgreeOnIn(n: Node, q1: Query, q2: Query)
  {
    n.Element? ==> Matches(q1, n) == Matches(q2, n) && AgreeOn(n.children, q1, q2)
  }

  /** The tree with every class attribute erased: what a class rewrite may not change. */
  function Unclassed(ns: seq<Node>): (r: seq<Node>)
    ensures |r| == |ns|
  {
    if ns == [] then [] else [UnclassedIn(ns[0])] + Unclassed(ns[1..])
  }

  function UnclassedIn(n: Node): Node
  {
    match n
    case Text(_) => n
    case Element(_, _, _, _, cs) => n.(classes := None, children := Unclassed(cs))
  }

  // ---------------------------------------------------------------------------
  // Agreement

  /** Queries that agree on every node agree on every tree. */
  lemma {:induction false} AgreeEverywhere(ns: seq<Node>, q1: Query, q2: Query)
    requires forall n: Node :: Matches(q1, n) == Matches(q2, n)
    ensures AgreeOn(ns, q1, q2)
  {
    if ns != [] {
      if ns[0].Element? {
        AgreeEverywhere(ns[0].children, q1, q2);
      }
      AgreeEverywhere(ns[1..], q1, q2);
    }
  }

  /**
   * With unique identities, "the id is in S" selects what `q` selects whenever `S`
   * holds exactly the ids `find_all(q)` returned (up to ids the tree lacks).
   */
  lemma {:induction false} AgreeOnFound(ns: seq<Node>, q: Query, S: set<nat>)
    requires Unique(ns)
    requires forall y :: y in Ids(ns) ==> (y in S <==> y in FindAll(ns, q))
    ensures AgreeOn(ns, IdIn(S), q)
  {
    if ns != [] {
      UniqueCons(ns);
      IdsCons(ns);
      FindAllInIds(ns[1..], q);
      FindAllInIdsIn(ns[0], q);
      AgreeOnFoundIn(ns[0], q, S);
      AgreeOnFound(ns[1..], q, S);
    }
  }

  lemma {:induction false} AgreeOnFoundIn(n: Node, q: Query, S: set<nat>)
    requires Distinct(FindAllIn(n, AnyElement))
    requires forall y :: y in FindAllIn(n, AnyElement) ==> (y in S <==> y in FindAllIn(n, q))
    ensures AgreeOnIn(n, IdIn(S), q)
  {
    if n.Element? {
      UniqueElement(n);
      var cs := n.children;
      var head: seq<nat> := if Matches(q, n) then [n.id] else [];
      assert FindAllIn(n, q) == head + FindAll(cs, q);
      assert FindAllIn(n, AnyElement) == [n.id] + Ids(cs);
      FindAllInIds(cs, q);
      AgreeOnFound(cs, q, S);
    }
  }

  /** Agreement survives a common alternative. */
  lemma {:induction false} AgreeEither(ns: seq<Node>, a: Query, b: Query, c: Query)
    requires AgreeOn(ns, b, c)
    ensures AgreeOn(ns, Either(a, b), Either(a, c))
  {
    if ns != [] {
      if ns[0].Element? {
        AgreeEither(ns[0].children, a, b, c);
      }
      AgreeEither(ns[1..], a, b, c);
    }
  }

  // ---------------------------------------------------------------------------
  // Reclass

  lemma {:induction false} ReclassAgree(ns: seq<Node>, q1: Query, q2: Query, f: ClassUpdate)
    requires AgreeOn(ns, q1, q2)
    ensures Reclass(ns, q1, f) == Reclass(ns, q2, f)
  {
    if ns != [] {
      if ns[0].Element? {
        ReclassAgree(ns[0].children, q1, q2, f);
      }
      ReclassAgree(ns[1..], q1, q2, f);
    }
  }

  /** A query that does not look at classes finds the same ids after a class rewrite. */
  lemma {:induction false} ReclassFindAll(ns: seq<Node>, q: Query, f: ClassUpdate, q2: Query)
    requires ClassFree(q2)
    ensures FindAll(Reclass(ns, q, f), q2) == FindAll(ns, q2)
  {
    if ns != [] {
      ReclassFindAllIn(ns[0], q, f, q2);
      ReclassFindAll(ns[1..], q, f, q2);
    }
  }

  lemma {:induction false} ReclassFindAllIn(n: Node, q: Query, f: ClassUpdate, q2: Query)
    requires ClassFree(q2)
    ensures FindAllIn(ReclassIn(n, q, f), q2) == FindAllIn(n, q2)
  {
    if n.Element? {
      var n' := n.(children := Reclass(n.children, q, f));
      MatchesIgnoresChildren(q2, n, n'.children);
      ClassFreeMatches(q2, n', f(n.classes));
      ReclassFindAll(n.children, q, f, q2);
    }
  }

  /** A class-blind `find` returns the rewritten copy of what it found before. */
  lemma {:induction false} ReclassFind(ns: seq<Node>, q: Query, f: ClassUpdate, q2: Query)
    requires ClassFree(q2)
    ensures Find(Reclass(ns, q, f), q2) ==
      if Find(ns, q2).Some? then Some(ReclassIn(Find(ns, q2).value, q, f)) else None
  {
    if ns != [] {
      ReclassFindIn(ns[0], q, f, q2);
      ReclassFind(ns[1..], q, f, q2);
    }
  }

  lemma {:induction false} ReclassFindIn(n: Node, q: Query, f: ClassUpdate, q2: Query)
    requires ClassFree(q2)
    ensures FindIn(ReclassIn(n, q, f), q2) ==
      if FindIn(n, q2).Some? then Some(ReclassIn(FindIn(n, q2).value, q, f)) else None
  {
    if n.Element? {
      var n' := n.(children := Reclass(n.children, q, f));
      MatchesIgnoresChildren(q2, n, n'.children);
      ClassFreeMatches(q2, n', f(n.classes));
      ReclassFind(n.children, q, f, q2);
    }
  }

  /** A class rewrite leaves `.string` alone. */
  lemma {:induction false} StringOfReclass(n: Node, q: Query, f: ClassUpdate)
    ensures StringOf(ReclassIn(n, q, f)) == StringOf(n)
  {
    if n.Element? && |n.children| == 1 {
      StringOfReclass(n.children[0], q, f);
    }
  }

  /** A class rewrite changes nothing but class attributes. */
  lemma {:induction false} ReclassOnlyClasses(ns: seq<Node>, q: Query, f: ClassUpdate)
    ensures Unclassed(Reclass(ns, q, f)) == Unclassed(ns)
  {
    if ns != [] {
      if ns[0].Element? {
        ReclassOnlyClasses(ns[0].children, q, f);
      }
      ReclassOnlyClasses(ns[1..], q, f);
    }
  }

  /** A rewrite that selects nothing is the identity. */
  lemma {:induction false} ReclassNothing(ns: seq<Node>, f: ClassUpdate)
    ensures Reclass(ns, IdIn({}), f) == ns
  {
    if ns != [] {
      if ns[0].Element? {
        ReclassNothing(ns[0].children, f);
        assert ns[0].(children := ns[0].children) == ns[0];
      }
      ReclassNothing(ns[1..], f);
    }
  }

  /**
   * Setting the classes of one not-yet-rewritten element to `f` of its classes
   * extends the rewrite to that element: the step of every class loop.
   */
  lemma {:induction false} SetClassesExtends(ns: seq<Node>, q: Query, f: ClassUpdate, x: nat, c: Option<seq<string>>)
    requires Unique(ns)
    requires Lookup(ns, x).Some? ==> !Matches(q, Lookup(ns, x).value) && c == f(Lookup(ns, x).value.classes)
    ensures EditAt(Reclass(ns, q, f), x, SetClasses(c)) == Reclass(ns, Either(q, WithId(x)), f)
  {
    if ns != [] {
      UniqueCons(ns);
      IdsCons(ns);
      LookupFound(ns, x);
      var m := ns[0];
      WithIdIsIdsIn(m, x);
      FindIsFirstIn(m, WithId(x));
      if x in FindAllIn(m, AnyElement) {
        assert Lookup(ns, x) == FindIn(m, WithId(x));
        LookupFound(ns[1..], x);
      } else {
        assert Lookup(ns, x) == Lookup(ns[1..], x);
      }
      SetClassesExtendsIn(m, q, f, x, c);
      SetClassesExtends(ns[1..], q, f, x, c);
      assert EditAt(Reclass(ns, q, f), x, SetClasses(c))[1..] == EditAt(Reclass(ns[1..], q, f), x, SetClasses(c));
    }
  }

  lemma {:induction false} SetClassesExtendsIn(m: Node, q: Query, f: ClassUpdate, x: nat, c: Option<seq<string>>)
    requires Distinct(FindAllIn(m, AnyElement))
    requires FindIn(m, WithId(x)).Some? ==> !Matches(q, FindIn(m, WithId(x)).value) && c == f(FindIn(m, WithId(x)).value.classes)
    ensures EditIn(ReclassIn(m, q, f), x, SetClasses(c)) == ReclassIn(m, Either(q, WithId(x)), f)
  {
    if m.Element? {
      UniqueElement(m);
      var cs := m.children;
      LookupFound(cs, x);
      if m.id == x {
        ReclassFindAll(cs, q, f, AnyElement);
        EditAbsent(Reclass(cs, q, f), x, SetClasses(c));
        AgreeNotHere(cs, q, x);
        ReclassAgree(cs, q, Either(q, WithId(x)), f);
      } else {
        assert FindIn(m, WithId(x)) == Lookup(cs, x);
        SetClassesExtends(cs, q, f, x, c);
      }
    }
  }

  /**
   * The step of a class loop over ids collected beforehand: the element `xs[k]` still
   * has its original classes, and setting them to `f` of those extends the rewrite
   * of `xs[..k]` to `xs[..k + 1]`.
   */
  lemma ReclassStep(ns: seq<Node>, xs: seq<nat>, k: nat, f: ClassUpdate)
    requires Unique(ns) && Distinct(xs) && k < |xs| && Lookup(ns, xs[k]).Some?
    ensures var done := Reclass(ns, IdIn(SetOf(xs[..k])), f);
      Lookup(done, xs[k]).Some? && Lookup(done, xs[k]).value.classes == Lookup(ns, xs[k]).value.classes &&
      EditAt(done, xs[k], SetClasses(f(Lookup(ns, xs[k]).value.classes))) == Reclass(ns, IdIn(SetOf(xs[..k + 1])), f)
  {
    var x := xs[k];
    var q := IdIn(SetOf(xs[..k]));
    LookupFound(ns, x);
    var h := Lookup(ns, x).value;
    ReclassFind(ns, q, f, WithId(x));
    forall i | 0 <= i < k ensures xs[..k][i] != x {
    }
    assert !Matches(q, h);
    SetClassesExtends(ns, q, f, x, f(h.classes));
    assert xs[..k + 1] == xs[..k] + [x];
    assert SetOf(xs[..k + 1]) == SetOf(xs[..k]) + {x};
    AgreeEverywhere(ns, Either(q, WithId(x)), IdIn(SetOf(xs[..k + 1])));
    ReclassAgree(ns, Either(q, WithId(x)), IdIn(SetOf(xs[..k + 1])), f);
  }

  /** Before a class loop nothing is rewritten; after it, everything `find_all` returned is. */
  lemma ReclassLoopEnds(ns: seq<Node>, q: Query, xs: seq<nat>, f: ClassUpdate)
    requires Unique(ns) && xs == FindAll(ns, q)
    ensures Reclass(ns, IdIn(SetOf(xs[..0])), f) == ns
    ensures Reclass(ns, IdIn(SetOf(xs[..|xs|])), f) == Reclass(ns, q, f)
  {
    assert SetOf(xs[..0]) == {};
    ReclassNothing(ns, f);
    assert xs[..|xs|] == xs;
    AgreeOnFound(ns, q, SetOf(xs));
    ReclassAgree(ns, IdIn(SetOf(xs)), q, f);
  }

  /** Adding an identity the tree lacks to a query changes nothing it selects. */
  lemma {:induction false} AgreeNotHere(ns: seq<Node>, q: Query, x: nat)
    requires x !in Ids(ns)
    ensures AgreeOn(ns, q, Either(q, WithId(x)))
  {
    if ns != [] {
      IdsCons(ns);
      var m := ns[0];
      if m.Element? {
        assert FindAllIn(m, AnyElement) == [m.id] + Ids(m.children);
        assert m.id != x;
        assert Matches(Either(q, WithId(x)), m) == Matches(q, m);
        AgreeNotHere(m.children, q, x);
        assert AgreeOnIn(m, q, Either(q, WithId(x)));
      }
      AgreeNotHere(ns[1..], q, x);
    }
  }

  // ---------------------------------------------------------------------------
  // Prune

  lemma {:induction false} PruneAgree(ns: seq<Node>, q1: Query, q2: Query)
    requires AgreeOn(ns, q1, q2)
    ensures Prune(ns, q1) == Prune(ns, q2)
  {
    if ns != [] {
      if ns[0].Element? {
        PruneAgree(ns[0].children, q1, q2);
      }
      PruneAgree(ns[1..], q1, q2);
    }
  }

  lemma PruneConcat(a: seq<Node>, b: seq<Node>, q: Query)
    ensures Prune(a + b, q) == Prune(a, q) + Prune(b, q)
  {
    if a == [] {
      assert a + b == b;
    } else {
      assert (a + b)[1..] == a[1..] + b;
      PruneConcat(a[1..], b, q);
    }
  }

  /** Removing what `q1` selects and then what `q2` selects removes what either selects. */
  lemma {:induction false} PruneCompose(ns: seq<Node>, q1: Query, q2: Query)
    ensures Prune(Prune(ns, q1), q2) == Prune(ns, Either(q1, q2))
  {
    if ns != [] {
      var m := ns[0];
      PruneCompose(ns[1..], q1, q2);
      if Matches(q1, m) {
        assert Prune(ns, q1) == Prune(ns[1..], q1);
      } else {
        var m' := PruneIn(m, q1);
        assert Prune(ns, q1) == [m'] + Prune(ns[1..], q1);
        PruneConcat([m'], Prune(ns[1..], q1), q2);
        if m.Element? {
          PruneCompose(m.children, q1, q2);
          MatchesIgnoresChildren(q2, m, m'.children);
        }
        assert [m'][1..] == [];
      }
    }
  }

  /** Afterwards nothing the query selects is left. */
  lemma {:induction false} PruneRemovesAll(ns: seq<Node>, q: Query)
    ensures FindAll(Prune(ns, q), q) == []
  {
    if ns != [] {
      PruneRemovesAll(ns[1..], q);
      var m := ns[0];
      if !Matches(q, m) {
        var m' := PruneIn(m, q);
        assert Prune(ns, q) == [m'] + Prune(ns[1..], q);
        FindAllConcat([m'], Prune(ns[1..], q), q);
        FindAllOne(m', q);
        if m.Element? {
          PruneRemovesAll(m.children, q);
          MatchesIgnoresChildren(q, m, m'.children);
          assert !Matches(q, m');
          assert FindAllIn(m', q) == FindAll(m'.children, q);
        }
      } else {
        assert Prune(ns, q) == Prune(ns[1..], q);
      }
    }
  }

  /** A tree holding nothing the query selects is left as it is. */
  lemma {:induction false} PruneNothing(ns: seq<Node>, q: Query)
    requires FindAll(ns, q) == []
    ensures Prune(ns, q) == ns
  {
    if ns != [] {
      var m := ns[0];
      PruneNothing(ns[1..], q);
      FindAllConcat([m], ns[1..], q);
      FindAllOne(m, q);
      assert ns == [m] + ns[1..];
      if m.Element? {
        assert !Matches(q, m);
        assert FindAllIn(m, q) == FindAll(m.children, q);
        PruneNothing(m.children, q);
        assert m.(children := m.children) == m;
      }
    }
  }

  /** The empty id set selects nothing. */
  lemma {:induction false} SelectsNothing(ns: seq<Node>)
    ensures FindAll(ns, IdIn({})) == []
  {
    if ns != [] {
      if ns[0].Element? {
        SelectsNothing(ns[0].children);
      }
      SelectsNothing(ns[1..]);
    }
  }

  /**
   * The step of a removal loop over ids collected beforehand: removing `xs[k]`
   * extends the removal of `xs[..k]` to `xs[..k + 1]` (an element already gone with
   * an earlier one is not there to remove).
   */
  lemma PruneStep(ns: seq<Node>, xs: seq<nat>, k: nat)
    requires k < |xs|
    ensures Prune(Prune(ns, IdIn(SetOf(xs[..k]))), WithId(xs[k])) == Prune(ns, IdIn(SetOf(xs[..k + 1])))
  {
    var q := IdIn(SetOf(xs[..k]));
    PruneCompose(ns, q, WithId(xs[k]));
    assert xs[..k + 1] == xs[..k] + [xs[k]];
    assert SetOf(xs[..k + 1]) == SetOf(xs[..k]) + {xs[k]};
    AgreeEverywhere(ns, Either(q, WithId(xs[k])), IdIn(SetOf(xs[..k + 1])));
    PruneAgree(ns, Either(q, WithId(xs[k])), IdIn(SetOf(xs[..k + 1])));
  }

  /** Before a removal loop nothing is removed; after it, everything `find_all` returned is. */
  lemma PruneLoopEnds(ns: seq<Node>, q: Query, xs: seq<nat>)
    requires Unique(ns) && xs == FindAll(ns, q)
    ensures Prune(ns, IdIn(SetOf(xs[..0]))) == ns
    ensures Prune(ns, IdIn(SetOf(xs[..|xs|]))) == Prune(ns, q)
  {
    assert SetOf(xs[..0]) == {};
    SelectsNothing(ns);
    PruneNothing(ns, IdIn({}));
    assert xs[..|xs|] == xs;
    AgreeOnFound(ns, q, SetOf(xs));
    PruneAgree(ns, IdIn(SetOf(xs)), q);
  }

  /** No element `q` selects has an element `q2` selects below it. */
  predicate Sealed(ns: seq<Node>, q: Query, q2: Query)
  {
    ns == [] || (SealedIn(ns[0], q, q2) && Sealed(ns[1..], q, q2))
  }

  predicate SealedIn(n: Node, q: Query, q2: Query)
  {
    n.Element? ==> if Matches(q, n) then FindAll(n.children, q2) == [] else Sealed(n.children, q, q2)
  }

  /**
   * Removal keeps every element of the other kinds, in document order, when none
   * of them sits inside a removed element.
   */
  lemma {:induction false} PruneKeepsOthers(ns: seq<Node>, q: Query, q2: Query)
    requires q.Named? && q2.Named? && q.names !! q2.names && Sealed(ns, q, q2)
    ensures FindAll(Prune(ns, q), q2) == FindAll(ns, q2)
  {
    if ns != [] {
      var m := ns[0];
      PruneKeepsOthers(ns[1..], q, q2);
      if Matches(q, m) {
        assert Prune(ns, q) == Prune(ns[1..], q);
        assert !Matches(q2, m);
      } else {
        var m' := PruneIn(m, q);
        assert Prune(ns, q) == [m'] + Prune(ns[1..], q);
        FindAllConcat([m'], Prune(ns[1..], q), q2);
        FindAllOne(m', q2);
        if m.Element? {
          PruneKeepsOthers(m.children, q, q2);
          MatchesIgnoresChildren(q2, m, m'.children);
        }
      }
    }
  }

  /** Removal never creates an element. */
  lemma {:induction false} PruneIds(ns: seq<Node>, q: Query)
    ensures multiset(Ids(Prune(ns, q))) <= multiset(Ids(ns))
  {
    if ns != [] {
      var m := ns[0];
      PruneIds(ns[1..], q);
      IdsCons(ns);
      if !Matches(q, m) {
        var m' := PruneIn(m, q);
        assert Prune(ns, q) == [m'] + Prune(ns[1..], q);
        FindAllConcat([m'], Prune(ns[1..], q), AnyElement);
        FindAllOne(m', AnyElement);
        if m.Element? {
          PruneIds(m.children, q);
          assert FindAllIn(m', AnyElement) == [m.id] + Ids(Prune(m.children, q));
          assert FindAllIn(m, AnyElement) == [m.id] + Ids(m.children);
        }
      } else {
        assert Prune(ns, q) == Prune(ns[1..], q);
      }
    }
  }

  /**
   * Under unique identities, removing the element with identity `x` removes
   * exactly the ids of its subtree.
   */
  lemma {:induction false} PruneOne(ns: seq<Node>, x: nat)
    requires Unique(ns) && Lookup(ns, x).Some?
    ensures multiset(Ids(Prune(ns, WithId(x)))) + multiset(FindAllIn(Lookup(ns, x).value, AnyElement)) == multiset(Ids(ns))
  {
    var m := ns[0];
    UniqueCons(ns);
    IdsCons(ns);
    LookupFound(ns, x);
    WithIdIsIdsIn(m, x);
    FindIsFirstIn(m, WithId(x));
    if x in FindAllIn(m, AnyElement) {
      WithIdIsIds(ns[1..], x);
      PruneNothing(ns[1..], WithId(x));
      assert Lookup(ns, x) == FindIn(m, WithId(x));
      if m.id == x {
        assert Prune(ns, WithId(x)) == Prune(ns[1..], WithId(x));
      } else {
        PruneOneIn(m, x);
        var m' := PruneIn(m, WithId(x));
        FindAllConcat([m'], Prune(ns[1..], WithId(x)), AnyElement);
        FindAllOne(m', AnyElement);
      }
    } else {
      assert Lookup(ns, x) == Lookup(ns[1..], x);
      PruneOne(ns[1..], x);
      WithIdIsIdsIn(m, x);
      var m' := PruneIn(m, WithId(x));
      PruneNothingIn(m, WithId(x));
      FindAllConcat([m'], Prune(ns[1..], WithId(x)), AnyElement);
      FindAllOne(m', AnyElement);
    }
  }

  lemma {:induction false} PruneOneIn(m: Node, x: nat)
    requires m.Element? && m.id != x
    requires Distinct(FindAllIn(m, AnyElement)) && x in FindAllIn(m, AnyElement)
    ensures FindIn(m, WithId(x)).Some?
    ensures multiset(FindAllIn(PruneIn(m, WithId(x)), AnyElement)) + multiset(FindAllIn(FindIn(m, WithId(x)).value, AnyElement))
      == multiset(FindAllIn(m, AnyElement))
  {
    UniqueElement(m);
    var cs := m.children;
    LookupFound(cs, x);
    assert FindIn(m, WithId(x)) == Lookup(cs, x);
    PruneOne(cs, x);
    assert FindAllIn(PruneIn(m, WithId(x)), AnyElement) == [m.id] + Ids(Prune(cs, WithId(x)));
  }

  lemma PruneNothingIn(n: Node, q: Query)
    requires FindAllIn(n, q) == []
    ensures PruneIn(n, q) == n
  {
    if n.Element? {
      assert !Matches(q, n);
      assert FindAllIn(n, q) == FindAll(n.children, q);
      PruneNothing(n.children, q);
      assert n.(children := n.children) == n;
    }
  }

  /**
   * Under unique identities, removing the element with identity `x` leaves the
   * element with identity `t` as it was, when neither lies inside the other.
   */
  lemma {:induction false} PruneLookup(ns: seq<Node>, x: nat, t: nat)
    requires Unique(ns) && Lookup(ns, t).Some?
    requires x !in FindAllIn(Lookup(ns, t).value, AnyElement)
    requires Lookup(ns, x).Some? ==> t !in FindAllIn(Lookup(ns, x).value, AnyElement)
    ensures Lookup(Prune(ns, WithId(x)), t) == Lookup(ns, t)
    decreases ns, 2
  {
    WithIdIsIdsIn(ns[0], t);
    FindIsFirstIn(ns[0], WithId(t));
    if t in FindAllIn(ns[0], AnyElement) {
      PruneLookupHead(ns, x, t);
    } else {
      PruneLookupTail(ns, x, t);
    }
  }

  /** `PruneLookup` when `t` is under the first node. */
  lemma {:induction false} PruneLookupHead(ns: seq<Node>, x: nat, t: nat)
    requires Unique(ns) && ns != [] && t in FindAllIn(ns[0], AnyElement) && Lookup(ns, t).Some?
    requires x !in FindAllIn(Lookup(ns, t).value, AnyElement)
    requires Lookup(ns, x).Some? ==> t !in FindAllIn(Lookup(ns, x).value, AnyElement)
    ensures Lookup(Prune(ns, WithId(x)), t) == Lookup(ns, t)
    decreases ns, 1
  {
    var m := ns[0];
    UniqueCons(ns);
    WithIdIsIdsIn(m, t);
    FindIsFirstIn(m, WithId(t));
    WithIdIsIdsIn(m, x);
    FindIsFirstIn(m, WithId(x));
    var m' := PruneIn(m, WithId(x));
    var tail := Prune(ns[1..], WithId(x));
    assert Lookup(ns, t) == FindIn(m, WithId(t));
    assert m.id != x;
    assert Prune(ns, WithId(x)) == [m'] + tail;
    PruneLookupIn(m, x, t);
    FindConcat([m'], tail, WithId(t));
    assert Find([m'], WithId(t)) == FindIn(m', WithId(t));
  }

  /** `PruneLookup` when `t` is past the first node. */
  lemma {:induction false} PruneLookupTail(ns: seq<Node>, x: nat, t: nat)
    requires Unique(ns) && ns != [] && t !in FindAllIn(ns[0], AnyElement) && Lookup(ns, t).Some?
    requires x !in FindAllIn(Lookup(ns, t).value, AnyElement)
    requires Lookup(ns, x).Some? ==> t !in FindAllIn(Lookup(ns, x).value, AnyElement)
    ensures Lookup(Prune(ns, WithId(x)), t) == Lookup(ns, t)
    decreases ns, 1
  {
    var m := ns[0];
    UniqueCons(ns);
    WithIdIsIdsIn(m, t);
    FindIsFirstIn(m, WithId(t));
    assert Lookup(ns, t) == Lookup(ns[1..], t);
    WithIdIsIdsIn(m, x);
    FindIsFirstIn(m, WithId(x));
    if x in FindAllIn(m, AnyElement) {
      WithIdIsIds(ns[1..], x);
      FindIsFirst(ns[1..], WithId(x));
    } else {
      assert Lookup(ns, x) == Lookup(ns[1..], x);
    }
    PruneLookup(ns[1..], x, t);
    PruneLookupSkips(ns, x, t);
  }

  /** Removal under the first node brings no `t` into it, so the search for `t` goes on past it. */
  lemma PruneLookupSkips(ns: seq<Node>, x: nat, t: nat)
    requires ns != [] && t !in FindAllIn(ns[0], AnyElement)
    ensures Lookup(Prune(ns, WithId(x)), t) == Lookup(Prune(ns[1..], WithId(x)), t)
  {
    var head, tail := Prune([ns[0]], WithId(x)), Prune(ns[1..], WithId(x));
    PrunedHeadFree(ns[0], x, t);
    assert ns == [ns[0]] + ns[1..];
    PruneConcat([ns[0]], ns[1..], WithId(x));
    FindConcat(head, tail, WithId(t));
  }

  /** A node without `t` has none once pruned. */
  lemma PrunedHeadFree(m: Node, x: nat, t: nat)
    requires t !in FindAllIn(m, AnyElement)
    ensures Lookup(Prune([m], WithId(x)), t).None?
  {
    var head := Prune([m], WithId(x));
    PruneIds([m], WithId(x));
    FindAllOne(m, AnyElement);
    assert multiset(Ids([m]))[t] == 0;
    assert multiset(Ids(head))[t] == 0;
    WithIdIsIds(head, t);
    FindIsFirst(head, WithId(t));
  }

  lemma {:induction false} PruneLookupIn(m: Node, x: nat, t: nat)
    requires m.Element? && m.id != x && Distinct(FindAllIn(m, AnyElement)) && t in FindAllIn(m, AnyElement)
    requires FindIn(m, WithId(t)).Some? && x !in FindAllIn(FindIn(m, WithId(t)).value, AnyElement)
    requires FindIn(m, WithId(x)).Some? ==> t !in FindAllIn(FindIn(m, WithId(x)).value, AnyElement)
    ensures FindIn(PruneIn(m, WithId(x)), WithId(t)) == FindIn(m, WithId(t))
    decreases m
  {
    UniqueElement(m);
    var cs := m.children;
    if m.id == t {
      WithIdIsIdsIn(m, x);
      PruneNothingIn(m, WithId(x));
    } else {
      assert FindIn(m, WithId(t)) == Lookup(cs, t);
      assert FindIn(m, WithId(x)) == Lookup(cs, x);
      PruneLookup(cs, x, t);
      assert PruneIn(m, WithId(x)) == m.(children := Prune(cs, WithId(x)));
    }
  }

  /**
   * `extract()` of the element with identity `x`: under unique identities the
   * detached subtree is unique on its own, its ids leave the tree, and every other
   * id stays.
   */
  lemma PruneDetaches(ns: seq<Node>, x: nat)
    requires Unique(ns) && Lookup(ns, x).Some?
    ensures var p, rest := Lookup(ns, x).value, Prune(ns, WithId(x));
      Unique([p]) && Unique(rest) &&
      (forall y :: y in Ids([p]) ==> y in Ids(ns) && y !in Ids(rest)) &&
      (forall y :: y in Ids(ns) && y !in Ids([p]) ==> y in Ids(rest)) &&
      multiset(Ids(rest)) + multiset(Ids([p])) == multiset(Ids(ns))
  {
    var p, rest := Lookup(ns, x).value, Prune(ns, WithId(x));
    PruneOne(ns, x);
    FindAllOne(p, AnyElement);
    SplitDistinct(Ids(rest), Ids([p]), Ids(ns));
  }

  /** A list of distinct ids split into two parts, as multisets. */
  lemma SplitDistinct(a: seq<nat>, b: seq<nat>, s: seq<nat>)
    requires multiset(a) + multiset(b) == multiset(s) && Distinct(s)
    ensures Distinct(a) && Distinct(b)
    ensures forall y :: y in b ==> y in s && y !in a
    ensures forall y :: y in s && y !in b ==> y in a
  {
    DistinctMultiset(s);
    forall y ensures multiset(a)[y] <= 1 && multiset(b)[y] <= 1 {
      assert (multiset(a) + multiset(b))[y] == multiset(s)[y];
    }
    DistinctMultiset(a);
    DistinctMultiset(b);
    forall y | y in b ensures y in s && y !in a {
      assert multiset(b)[y] > 0;
      assert multiset(s)[y] <= 1;
    }
    forall y | y in s && y !in b ensures y in a {
      assert multiset(s)[y] > 0;
    }
  }
}
