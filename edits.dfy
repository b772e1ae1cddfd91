/**
 * The in-place mutations the scripts make through a reference (`tag['class'] = …`,
 * `tag.string.replace_with(…)`, `tag.insert(0, …)`, `tag.append(…)`,
 * `tag.decompose()`), and the whole-tree rewrites that describe what a loop of
 * them amounts to (`Reclass`, `Prune`), with the facts that connect the two.
 */
module Edits {
  import opened Wrappers
  import opened Tree

  /** What a mutation through a reference does to the element it points to. */
  datatype Edit =
    | SetClasses(classes: Option<seq<string>>)
    | ReplaceString(s: string)
    | InsertFirst(child: Node)
    | Append(child: Node)

  /** The nodes an edit adds under the element it targets. */
  function Added(e: Edit): seq<Node> {
    match e
    case InsertFirst(c) => [c]
    case Append(c) => [c]
    case _ => []
  }

  /** `.string.replace_with(s)`: the string that `.string` designates is replaced by `s`. */
  function ReplaceStringIn(n: Node, s: string): (r: Node)
  {
    match n
    case Text(_) => Text(s)
    case Element(_, _, _, _, cs) => if |cs| == 1 then n.(children := [ReplaceStringIn(cs[0], s)]) else n
  }

  function Apply(e: Edit, n: Node): Node
    requires n.Element?
  {
    match e
    case SetClasses(c) => n.(classes := c)
    case ReplaceString(s) => ReplaceStringIn(n, s)
    case InsertFirst(c) => n.(children := [c] + n.children)
    case Append(c) => n.(children := n.children + [c])
  }

  /** The edit made on the element with identity `x` (on every such element, were there several). */
  function EditAt(ns: seq<Node>, x: nat, e: Edit): (r: seq<Node>)
    ensures |r| == |ns|
  {
    if ns == [] then [] else [EditIn(ns[0], x, e)] + EditAt(ns[1..], x, e)
  }

  function EditIn(n: Node, x: nat, e: Edit): Node
  {
    match n
    case Text(_) => n
    case Element(id, _, _, _, cs) =>
      var n' := n.(children := EditAt(cs, x, e));
      if id == x then Apply(e, n') else n'
  }

  lemma MatchesIgnoresChildren(q: Query, n: Node, cs: seq<Node>)
    requires n.Element?
    ensures Matches(q, n.(children := cs)) == Matches(q, n)
  {
  }

  lemma EditAtConcat(a: seq<Node>, b: seq<Node>, x: nat, e: Edit)
    ensures EditAt(a + b, x, e) == EditAt(a, x, e) + EditAt(b, x, e)
  {
    if a == [] {
      assert a + b == b;
    } else {
      assert (a + b)[1..] == a[1..] + b;
      EditAtConcat(a[1..], b, x, e);
    }
  }

  /** A reference to an identity the tree does not hold changes nothing. */
  lemma {:induction false} EditAbsent(ns: seq<Node>, x: nat, e: Edit)
    requires x !in Ids(ns)
    ensures EditAt(ns, x, e) == ns
  {
    if ns != [] {
      IdsCons(ns);
      EditAbsentIn(ns[0], x, e);
      EditAbsent(ns[1..], x, e);
    }
  }

  lemma {:induction false} EditAbsentIn(n: Node, x: nat, e: Edit)
    requires x !in FindAllIn(n, AnyElement)
    ensures EditIn(n, x, e) == n
  {
    if n.Element? {
      EditAbsent(n.children, x, e);
    }
  }

  /** The string `.string` designates is the one written: `.string` then reads back `s`. */
  lemma {:induction false} ReplaceStringRoundTrip(n: Node, s: string)
    requires StringOf(n).Some?
    ensures StringOf(ReplaceStringIn(n, s)) == Some(s)
  {
    if n.Element? {
      ReplaceStringRoundTrip(n.children[0], s);
    }
  }

  /** Replacing a string creates and destroys no element. */
  lemma {:induction false} ReplaceStringKeepsElements(n: Node, s: string, q: Query)
    ensures FindAllIn(ReplaceStringIn(n, s), q) == FindAllIn(n, q)
  {
    if n.Element? && |n.children| == 1 {
      var c := n.children[0];
      var n' := n.(children := [ReplaceStringIn(c, s)]);
      assert ReplaceStringIn(n, s) == n';
      ReplaceStringKeepsElements(c, s, q);
      FindAllOne(c, q);
      FindAllOne(ReplaceStringIn(c, s), q);
      assert n.children == [c];
      MatchesIgnoresChildren(q, n, [ReplaceStringIn(c, s)]);
      assert FindAllIn(n', q) == (if Matches(q, n') then [n.id] else []) + FindAll([ReplaceStringIn(c, s)], q);
    }
  }

  /** Under unique identities, the element a reference points to is the one edited. */
  lemma {:induction false} LookupEdited(ns: seq<Node>, x: nat, e: Edit)
    requires Unique(ns) && Lookup(ns, x).Some?
    requires x !in Ids(Added(e))
    ensures Lookup(EditAt(ns, x, e), x) == Some(Apply(e, Lookup(ns, x).value))
  {
    LookupFound(ns, x);
    UniqueCons(ns);
    var m := ns[0];
    IdsCons(ns);
    if x in FindAllIn(m, AnyElement) {
      EditAbsent(ns[1..], x, e);
      LookupEditedIn(m, x, e);
      WithIdIsIdsIn(m, x);
      FindIsFirstIn(m, WithId(x));
    } else {
      EditAbsentIn(m, x, e);
      WithIdIsIdsIn(m, x);
      FindIsFirstIn(m, WithId(x));
      LookupEdited(ns[1..], x, e);
    }
  }

  lemma {:induction false} LookupEditedIn(m: Node, x: nat, e: Edit)
    requires Distinct(FindAllIn(m, AnyElement)) && x in FindAllIn(m, AnyElement)
    requires x !in Ids(Added(e))
    ensures FindIn(m, WithId(x)).Some?
    ensures FindIn(EditIn(m, x, e), WithId(x)) == Some(Apply(e, FindIn(m, WithId(x)).value))
  {
    UniqueElement(m);
    if m.id == x {
      EditAbsent(m.children, x, e);
      assert m.(children := m.children) == m;
    } else {
      LookupFound(m.children, x);
      LookupEdited(m.children, x, e);
    }
  }

  /** The edits that leave an element answering the query `q` as before. */
  predicate KeepsMatches(e: Edit, q: Query) {
    e.SetClasses? ==> ClassFree(q)
  }

  /**
   * An edit through a reference adds exactly the nodes it inserts (once, when the
   * reference resolves) and removes nothing.
   */
  lemma {:induction false} EditFindAll(ns: seq<Node>, x: nat, e: Edit, q: Query)
    requires Unique(ns) && KeepsMatches(e, q)
    ensures multiset(FindAll(EditAt(ns, x, e), q)) ==
      multiset(FindAll(ns, q)) + (if x in Ids(ns) then multiset(FindAll(Added(e), q)) else multiset{})
    decreases ns
  {
    if ns != [] {
      UniqueCons(ns);
      var ids0, ids1 := FindAllIn(ns[0], AnyElement), Ids(ns[1..]);
      assert !(x in ids0 && x in ids1);
      EditAtCons(ns, x, e, q);
      EditFindAllIn(ns[0], x, e, q);
      EditFindAll(ns[1..], x, e, q);
      SumOfParts(multiset(FindAll(EditAt(ns, x, e), q)), multiset(FindAll(ns, q)),
        multiset(FindAllIn(EditIn(ns[0], x, e), q)), multiset(FindAll(EditAt(ns[1..], x, e), q)),
        multiset(FindAllIn(ns[0], q)), multiset(FindAll(ns[1..], q)),
        ids0, ids1, x, multiset(FindAll(Added(e), q)));
    }
  }

  /** `find_all` over an edited list, split at its first node. */
  lemma EditAtCons(ns: seq<Node>, x: nat, e: Edit, q: Query)
    requires ns != []
    ensures FindAll(EditAt(ns, x, e), q) == FindAllIn(EditIn(ns[0], x, e), q) + FindAll(EditAt(ns[1..], x, e), q)
    ensures FindAll(ns, q) == FindAllIn(ns[0], q) + FindAll(ns[1..], q)
    ensures Ids(ns) == FindAllIn(ns[0], AnyElement) + Ids(ns[1..])
  {
    var r := EditAt(ns, x, e);
    assert r[0] == EditIn(ns[0], x, e) && r[1..] == EditAt(ns[1..], x, e);
  }

  /** The bookkeeping of `EditFindAll`: what each part gains adds up, the target being in one part at most. */
  lemma SumOfParts(r: multiset<nat>, o: multiset<nat>, r0: multiset<nat>, r1: multiset<nat>,
    o0: multiset<nat>, o1: multiset<nat>, ids0: seq<nat>, ids1: seq<nat>, x: nat, added: multiset<nat>)
    requires r == r0 + r1 && o == o0 + o1 && !(x in ids0 && x in ids1)
    requires r0 == o0 + (if x in ids0 then added else multiset{})
    requires r1 == o1 + (if x in ids1 then added else multiset{})
    ensures r == o + (if x in ids0 + ids1 then added else multiset{})
  {
  }

  lemma {:induction false} EditFindAllIn(n: Node, x: nat, e: Edit, q: Query)
    requires Distinct(FindAllIn(n, AnyElement)) && KeepsMatches(e, q)
    ensures multiset(FindAllIn(EditIn(n, x, e), q)) ==
      multiset(FindAllIn(n, q)) + (if x in FindAllIn(n, AnyElement) then multiset(FindAll(Added(e), q)) else multiset{})
    decreases n, 1
  {
    if n.Element? {
      UniqueElement(n);
      if n.id == x {
        EditFindAllHere(n, e, q);
      } else {
        EditFindAllBelow(n, x, e, q);
      }
    }
  }

  lemma EditFindAllHere(n: Node, e: Edit, q: Query)
    requires n.Element? && KeepsMatches(e, q)
    requires n.id !in Ids(n.children)
    ensures multiset(FindAllIn(EditIn(n, n.id, e), q)) == multiset(FindAllIn(n, q)) + multiset(FindAll(Added(e), q))
  {
    EditAbsent(n.children, n.id, e);
    assert n.(children := n.children) == n;
    assert EditIn(n, n.id, e) == Apply(e, n);
    ApplyFindAll(n, e, q);
  }

  lemma {:induction false} EditFindAllBelow(n: Node, x: nat, e: Edit, q: Query)
    requires n.Element? && n.id != x && Unique(n.children) && KeepsMatches(e, q)
    ensures multiset(FindAllIn(EditIn(n, x, e), q)) ==
      multiset(FindAllIn(n, q)) + (if x in Ids(n.children) then multiset(FindAll(Added(e), q)) else multiset{})
    decreases n, 0
  {
    var cs := n.children;
    var cs' := EditAt(cs, x, e);
    assert EditIn(n, x, e) == n.(children := cs');
    Rechild(n, cs', q);
    Rechild(n, cs, q);
    assert n.(children := cs) == n;
    EditFindAll(cs, x, e, q);
    SameHead(multiset(FindAllIn(EditIn(n, x, e), q)), multiset(FindAllIn(n, q)),
      multiset(FindAll(cs', q)), multiset(FindAll(cs, q)), multiset(if Matches(q, n) then [n.id] else []),
      if x in Ids(cs) then multiset(FindAll(Added(e), q)) else multiset{});
  }

  /** The bookkeeping of `EditFindAllBelow`: the element itself counts the same before and after. */
  lemma SameHead(r: multiset<nat>, o: multiset<nat>, r1: multiset<nat>, o1: multiset<nat>,
    h: multiset<nat>, extra: multiset<nat>)
    requires r == h + r1 && o == h + o1 && r1 == o1 + extra
    ensures r == o + extra
  {
  }

  /** The elements under an element given new children: itself if it matches, then theirs. */
  lemma Rechild(n: Node, cs: seq<Node>, q: Query)
    requires n.Element?
    ensures FindAllIn(n.(children := cs), q) == (if Matches(q, n) then [n.id] else []) + FindAll(cs, q)
  {
    MatchesIgnoresChildren(q, n, cs);
  }

  lemma ApplyFindAll(n: Node, e: Edit, q: Query)
    requires n.Element? && KeepsMatches(e, q)
    ensures multiset(FindAllIn(Apply(e, n), q)) == multiset(FindAllIn(n, q)) + multiset(FindAll(Added(e), q))
  {
    match e
    case SetClasses(c) =>
      ClassFreeMatches(q, n, c);
    case ReplaceString(s) =>
      ReplaceStringKeepsElements(n, s, q);
    case InsertFirst(c) =>
      InsertedFindAll(n, [c], n.children, q);
    case Append(c) =>
      InsertedFindAll(n, n.children, [c], q);
  }

  /** An element whose children become `a + b`, one of the two being its old children. */
  lemma InsertedFindAll(n: Node, a: seq<Node>, b: seq<Node>, q: Query)
    requires n.Element? && (a == n.children || b == n.children)
    ensures multiset(FindAllIn(n.(children := a + b), q)) ==
      multiset(FindAllIn(n, q)) + multiset(FindAll(if a == n.children then b else a, q))
  {
    Rechild(n, a + b, q);
    Rechild(n, n.children, q);
    assert n.(children := n.children) == n;
    FindAllConcat(a, b, q);
  }

  lemma {:induction false} DistinctMultiset(s: seq<nat>)
    ensures Distinct(s) <==> forall y :: multiset(s)[y] <= 1
  {
    if s != [] {
      var t := s[1..];
      DistinctMultiset(t);
      assert s == [s[0]] + t;
      DistinctConcat([s[0]], t);
      assert multiset(s) == multiset{s[0]} + multiset(t);
      if Distinct(s) {
        forall y ensures multiset(s)[y] <= 1 {
          if y == s[0] {
            assert y !in t;
          }
        }
      } else if s[0] in t {
        assert multiset(s)[s[0]] >= 2;
      } else {
        var y :| multiset(t)[y] > 1;
        assert multiset(s)[y] > 1;
      }
    }
  }

  /** Inserting fresh nodes keeps identities unique. */
  lemma EditKeepsUnique(ns: seq<Node>, x: nat, e: Edit)
    requires Unique(ns)
    requires Unique(Added(e)) && forall y :: y in Ids(Added(e)) ==> y !in Ids(ns)
    ensures Unique(EditAt(ns, x, e))
    ensures x in Ids(ns) ==> multiset(Ids(EditAt(ns, x, e))) == multiset(Ids(ns)) + multiset(Ids(Added(e)))
    ensures x !in Ids(ns) ==> multiset(Ids(EditAt(ns, x, e))) == multiset(Ids(ns))
  {
    var a, b, r := Ids(ns), Ids(Added(e)), Ids(EditAt(ns, x, e));
    EditFindAll(ns, x, e, AnyElement);
    DistinctMultiset(a);
    DistinctMultiset(b);
    forall y ensures multiset(r)[y] <= 1 {
      if x in a {
        assert multiset(r)[y] == multiset(a)[y] + multiset(b)[y];
        if y in b {
          assert y !in a;
        }
      }
    }
    DistinctMultiset(r);
  }
}
