/**
 * The parsed document that both scripts work on: BeautifulSoup's tree of tags
 * and strings, as a value. An element's `id` stands for its object identity:
 * the source collects references with `find_all` and then mutates the objects
 * they point to, and the model collects ids and edits the element with that id.
 * Attributes other than `class` are an ordered list of name/value pairs;
 * `class` is kept apart as BeautifulSoup keeps it, as a list of tokens or absent.
 */
module Tree {
  import opened Wrappers

  datatype Node =
    | Text(text: string)
    | Element(id: nat, tag: string, classes: Option<seq<string>>, attrs: seq<(string, string)>, children: seq<Node>)

  /**
   * The searches the scripts make: by tag name(s), `class_=True`, any tag;
   * and, for stating what a loop has done so far, by identity and unions.
   */
  datatype Query =
    | Named(names: set<string>)
    | HasClass
    | AnyElement
    | WithId(x: nat)
    | IdIn(xs: set<nat>)
    | Either(left: Query, right: Query)

  predicate Matches(q: Query, n: Node) {
    n.Element? &&
    match q
    case Named(names) => n.tag in names
    case HasClass => n.classes.Some?
    case AnyElement => true
    case WithId(x) => n.id == x
    case IdIn(xs) => n.id in xs
    case Either(a, b) => Matches(a, n) || Matches(b, n)
  }

  /** A query that does not look at the class attribute. */
  predicate ClassFree(q: Query) {
    match q
    case HasClass => false
    case Either(a, b) => ClassFree(a) && ClassFree(b)
    case _ => true
  }

  lemma ClassFreeMatches(q: Query, n: Node, c: Option<seq<string>>)
    requires ClassFree(q) && n.Element?
    ensures Matches(q, n.(classes := c)) == Matches(q, n)
  {
  }

  /** `find_all`: the ids of the matching elements, in document order. */
  function FindAll(ns: seq<Node>, q: Query): seq<nat>
  {
    if ns == [] then [] else FindAllIn(ns[0], q) + FindAll(ns[1..], q)
  }

  function FindAllIn(n: Node, q: Query): seq<nat>
  {
    match n
    case Text(_) => []
    case Element(id, _, _, _, cs) => (if Matches(q, n) then [id] else []) + FindAll(cs, q)
  }

  /** `find`: the first matching element in document order. */
  function Find(ns: seq<Node>, q: Query): (r: Option<Node>)
    ensures r.Some? ==> Matches(q, r.value)
  {
    if ns == [] then None
    else match FindIn(ns[0], q)
      case Some(n) => Some(n)
      case None => Find(ns[1..], q)
  }

  function FindIn(n: Node, q: Query): (r: Option<Node>)
    ensures r.Some? ==> Matches(q, r.value)
  {
    match n
    case Text(_) => None
    case Element(_, _, _, _, cs) => if Matches(q, n) then Some(n) else Find(cs, q)
  }

  /** Every element's id, in document order. */
  function Ids(ns: seq<Node>): seq<nat> {
    FindAll(ns, AnyElement)
  }

  /** The element a reference with identity `x` points to. */
  function Lookup(ns: seq<Node>, x: nat): Option<Node> {
    Find(ns, WithId(x))
  }

  /** The ids of a list, as a set. */
  function SetOf(s: seq<nat>): set<nat> {
    set y | y in s
  }

  predicate Distinct(s: seq<nat>) {
    forall i, j :: 0 <= i < j < |s| ==> s[i] != s[j]
  }

  /** Distinct objects: no two elements share an identity. */
  predicate Unique(ns: seq<Node>) {
    Distinct(Ids(ns))
  }

  /** BeautifulSoup's `.string`: a string child, or the `.string` of a sole element child. */
  function StringOf(n: Node): Option<string>
  {
    match n
    case Text(s) => Some(s)
    case Element(_, _, _, _, cs) => if |cs| == 1 then StringOf(cs[0]) else None
  }

  // ---------------------------------------------------------------------------
  // Basic facts about the searches

  lemma FindAllConcat(a: seq<Node>, b: seq<Node>, q: Query)
    ensures FindAll(a + b, q) == FindAll(a, q) + FindAll(b, q)
  {
    if a == [] {
      assert a + b == b;
    } else {
      assert (a + b)[1..] == a[1..] + b;
      FindAllConcat(a[1..], b, q);
    }
  }

  lemma FindAllOne(n: Node, q: Query)
    ensures FindAll([n], q) == FindAllIn(n, q)
  {
    assert [n][1..] == [];
  }

  lemma FindConcat(a: seq<Node>, b: seq<Node>, q: Query)
    ensures Find(a + b, q) == if Find(a, q).Some? then Find(a, q) else Find(b, q)
  {
    if a == [] {
      assert a + b == b;
    } else {
      assert (a + b)[1..] == a[1..] + b;
      FindConcat(a[1..], b, q);
    }
  }

  /** `find` returns the first of the elements `find_all` returns. */
  lemma FindIsFirst(ns: seq<Node>, q: Query)
    ensures Find(ns, q).Some? <==> FindAll(ns, q) != []
    ensures Find(ns, q).Some? ==> Matches(q, Find(ns, q).value) && Find(ns, q).value.id == FindAll(ns, q)[0]
  {
    if ns != [] {
      FindIsFirstIn(ns[0], q);
      FindIsFirst(ns[1..], q);
    }
  }

  lemma FindIsFirstIn(n: Node, q: Query)
    ensures FindIn(n, q).Some? <==> FindAllIn(n, q) != []
    ensures FindIn(n, q).Some? ==> Matches(q, FindIn(n, q).value) && FindIn(n, q).value.id == FindAllIn(n, q)[0]
  {
    if n.Element? {
      FindIsFirst(n.children, q);
    }
  }

  /** Whatever a query finds is an element of the tree. */
  lemma FindAllInIds(ns: seq<Node>, q: Query)
    ensures forall x :: x in FindAll(ns, q) ==> x in Ids(ns)
  {
    if ns != [] {
      FindAllInIdsIn(ns[0], q);
      FindAllInIds(ns[1..], q);
    }
  }

  lemma FindAllInIdsIn(n: Node, q: Query)
    ensures forall x :: x in FindAllIn(n, q) ==> x in FindAllIn(n, AnyElement)
  {
    if n.Element? {
      FindAllInIds(n.children, q);
    }
  }

  /** A reference resolves exactly when some element carries that identity. */
  lemma LookupFound(ns: seq<Node>, x: nat)
    ensures Lookup(ns, x).Some? <==> x in Ids(ns)
    ensures Lookup(ns, x).Some? ==> Lookup(ns, x).value.Element? && Lookup(ns, x).value.id == x
  {
    FindIsFirst(ns, WithId(x));
    WithIdIsIds(ns, x);
  }

  lemma WithIdIsIds(ns: seq<Node>, x: nat)
    ensures FindAll(ns, WithId(x)) != [] <==> x in Ids(ns)
  {
    if ns != [] {
      WithIdIsIdsIn(ns[0], x);
      WithIdIsIds(ns[1..], x);
    }
  }

  lemma WithIdIsIdsIn(n: Node, x: nat)
    ensures FindAllIn(n, WithId(x)) != [] <==> x in FindAllIn(n, AnyElement)
  {
    if n.Element? {
      WithIdIsIds(n.children, x);
    }
  }

  lemma DistinctConcat(a: seq<nat>, b: seq<nat>)
    ensures Distinct(a + b) <==> Distinct(a) && Distinct(b) && forall x :: x in a ==> x !in b
  {
    if Distinct(a + b) {
      forall i, j | 0 <= i < j < |a| ensures a[i] != a[j] {
        assert a[i] == (a + b)[i] && a[j] == (a + b)[j];
      }
      forall i, j | 0 <= i < j < |b| ensures b[i] != b[j] {
        assert b[i] == (a + b)[|a| + i] && b[j] == (a + b)[|a| + j];
      }
      forall x | x in a ensures x !in b {
        var i :| 0 <= i < |a| && a[i] == x;
        forall j | 0 <= j < |b| ensures b[j] != x {
          assert (a + b)[i] == a[i] && (a + b)[|a| + j] == b[j];
        }
      }
    }
    if Distinct(a) && Distinct(b) && forall x :: x in a ==> x !in b {
      forall i, j | 0 <= i < j < |a + b| ensures (a + b)[i] != (a + b)[j] {
        if j < |a| {
          assert (a + b)[i] == a[i] && (a + b)[j] == a[j];
        } else if i >= |a| {
          assert (a + b)[i] == b[i - |a|] && (a + b)[j] == b[j - |a|];
        } else {
          assert (a + b)[i] == a[i] && (a + b)[j] == b[j - |a|];
          assert a[i] in a;
        }
      }
    }
  }

  /** Ids of a list split at its head. */
  lemma IdsCons(ns: seq<Node>)
    requires ns != []
    ensures Ids(ns) == FindAllIn(ns[0], AnyElement) + Ids(ns[1..])
  {
  }

  /** Under unique identities, a node and the rest of its sibling list share no element. */
  lemma UniqueCons(ns: seq<Node>)
    requires ns != [] && Unique(ns)
    ensures Distinct(FindAllIn(ns[0], AnyElement)) && Unique(ns[1..])
    ensures forall x :: x in FindAllIn(ns[0], AnyElement) ==> x !in Ids(ns[1..])
  {
    DistinctConcat(FindAllIn(ns[0], AnyElement), Ids(ns[1..]));
  }

  lemma UniqueElement(n: Node)
    requires n.Element? && Distinct(FindAllIn(n, AnyElement))
    ensures Unique(n.children) && n.id !in Ids(n.children)
  {
    DistinctConcat([n.id], Ids(n.children));
  }

  lemma UniqueSplit(a: seq<Node>, b: seq<Node>)
    requires Unique(a + b)
    ensures Unique(a) && Unique(b) && forall x :: x in Ids(a) ==> x !in Ids(b)
  {
    FindAllConcat(a, b, AnyElement);
    DistinctConcat(Ids(a), Ids(b));
  }

  /** With unique identities, the element `find` returns is the one its id refers to. */
  lemma {:induction false} LookupOfFound(ns: seq<Node>, q: Query)
    requires Unique(ns) && Find(ns, q).Some?
    ensures Lookup(ns, Find(ns, q).value.id) == Find(ns, q)
  {
    var n := Find(ns, q).value;
    UniqueCons(ns);
    match FindIn(ns[0], q)
    case Some(m) =>
      LookupOfFoundIn(ns[0], q);
      FindIsFirstIn(ns[0], q);
      FindAllInIdsIn(ns[0], q);
    case None =>
      LookupOfFound(ns[1..], q);
      FindIsFirst(ns[1..], q);
      FindAllInIds(ns[1..], q);
      WithIdIsIdsIn(ns[0], n.id);
      FindIsFirstIn(ns[0], WithId(n.id));
  }

  lemma {:induction false} LookupOfFoundIn(n: Node, q: Query)
    requires Distinct(FindAllIn(n, AnyElement)) && FindIn(n, q).Some?
    ensures FindIn(n, WithId(FindIn(n, q).value.id)) == FindIn(n, q)
  {
    var m := FindIn(n, q).value;
    if !Matches(q, n) {
      UniqueElement(n);
      LookupOfFound(n.children, q);
      FindIsFirst(n.children, q);
      FindAllInIds(n.children, q);
    }
  }

  /** With unique identities, `find_all` never returns an element twice. */
  lemma {:induction false} FindAllDistinct(ns: seq<Node>, q: Query)
    requires Unique(ns)
    ensures Distinct(FindAll(ns, q))
  {
    if ns != [] {
      UniqueCons(ns);
      FindAllDistinctIn(ns[0], q);
      FindAllDistinct(ns[1..], q);
      FindAllInIdsIn(ns[0], q);
      FindAllInIds(ns[1..], q);
      DistinctConcat(FindAllIn(ns[0], q), FindAll(ns[1..], q));
    }
  }

  lemma {:induction false} FindAllDistinctIn(n: Node, q: Query)
    requires Distinct(FindAllIn(n, AnyElement))
    ensures Distinct(FindAllIn(n, q))
  {
    if n.Element? {
      UniqueElement(n);
      FindAllDistinct(n.children, q);
      FindAllInIds(n.children, q);
      var head: seq<nat> := if Matches(q, n) then [n.id] else [];
      DistinctConcat(head, FindAll(n.children, q));
    }
  }

  /** With unique identities, an id `find_all` returned refers to an element the query selects. */
  lemma {:induction false} LookupFindAll(ns: seq<Node>, q: Query, x: nat)
    requires Unique(ns) && x in FindAll(ns, q)
    ensures Lookup(ns, x).Some? && Matches(q, Lookup(ns, x).value)
  {
    var m := ns[0];
    UniqueCons(ns);
    IdsCons(ns);
    FindAllInIdsIn(m, q);
    FindAllInIds(ns[1..], q);
    WithIdIsIdsIn(m, x);
    FindIsFirstIn(m, WithId(x));
    if x in FindAllIn(m, q) {
      assert Lookup(ns, x) == FindIn(m, WithId(x));
      LookupFindAllIn(m, q, x);
    } else {
      assert Lookup(ns, x) == Lookup(ns[1..], x);
      LookupFindAll(ns[1..], q, x);
    }
  }

  lemma {:induction false} LookupFindAllIn(m: Node, q: Query, x: nat)
    requires Distinct(FindAllIn(m, AnyElement)) && x in FindAllIn(m, q)
    ensures FindIn(m, WithId(x)).Some? && Matches(q, FindIn(m, WithId(x)).value)
  {
    UniqueElement(m);
    var cs := m.children;
    FindAllInIds(cs, q);
    var head: seq<nat> := if Matches(q, m) then [m.id] else [];
    assert FindAllIn(m, q) == head + FindAll(cs, q);
    if m.id != x {
      assert FindIn(m, WithId(x)) == Lookup(cs, x);
      LookupFindAll(cs, q, x);
    }
  }

  /** With unique identities, an id found under the `k`-th node resolves to what that node holds. */
  lemma LookupIn(ns: seq<Node>, k: nat, y: nat)
    requires Unique(ns) && k < |ns| && y in FindAllIn(ns[k], AnyElement)
    ensures y in Ids(ns)
    ensures FindIn(ns[k], WithId(y)).Some? && Lookup(ns, y) == FindIn(ns[k], WithId(y))
  {
    var a, b := ns[..k], ns[k..];
    assert ns == a + b;
    FindAllConcat(a, b, AnyElement);
    UniqueSplit(a, b);
    IdsCons(b);
    WithIdIsIds(a, y);
    FindIsFirst(a, WithId(y));
    FindConcat(a, b, WithId(y));
    WithIdIsIdsIn(ns[k], y);
    FindIsFirstIn(ns[k], WithId(y));
    assert Find(b, WithId(y)) == FindIn(ns[k], WithId(y));
  }

  /** With unique identities, a node of the top-level list is what its id refers to. */
  lemma LookupTop(ns: seq<Node>, k: nat)
    requires Unique(ns) && k < |ns| && ns[k].Element?
    ensures Lookup(ns, ns[k].id) == Some(ns[k])
  {
    assert FindAllIn(ns[k], AnyElement) == [ns[k].id] + Ids(ns[k].children);
    LookupIn(ns, k, ns[k].id);
  }

  /** With unique identities, an id under a child list refers to the same element from the top. */
  lemma LookupChild(ns: seq<Node>, k: nat, y: nat)
    requires Unique(ns) && k < |ns| && ns[k].Element? && y in Ids(ns[k].children)
    ensures y in Ids(ns) && Lookup(ns, y) == Lookup(ns[k].children, y)
  {
    var m := ns[k];
    assert FindAllIn(m, AnyElement) == [m.id] + Ids(m.children);
    assert ns == ns[..k] + ns[k..];
    UniqueSplit(ns[..k], ns[k..]);
    UniqueCons(ns[k..]);
    assert ns[k..][0] == m;
    UniqueElement(m);
    LookupIn(ns, k, y);
  }

  /** What `find` returns lies inside the list searched: its elements are elements of the list. */
  lemma {:induction false} FoundWithin(ns: seq<Node>, q: Query)
    requires Find(ns, q).Some?
    ensures forall z :: z in FindAllIn(Find(ns, q).value, AnyElement) ==> z in Ids(ns)
  {
    IdsCons(ns);
    if FindIn(ns[0], q).Some? {
      FoundWithinIn(ns[0], q);
    } else {
      FoundWithin(ns[1..], q);
    }
  }

  lemma {:induction false} FoundWithinIn(n: Node, q: Query)
    requires FindIn(n, q).Some?
    ensures forall z :: z in FindAllIn(FindIn(n, q).value, AnyElement) ==> z in FindAllIn(n, AnyElement)
  {
    if !Matches(q, n) {
      FoundWithin(n.children, q);
      assert FindAllIn(n, AnyElement) == [n.id] + Ids(n.children);
    }
  }

  /** An element under the `k`-th node of a list is an element of the list. */
  lemma IdsAt(ns: seq<Node>, k: nat, y: nat)
    requires k < |ns| && y in FindAllIn(ns[k], AnyElement)
    ensures y in Ids(ns)
  {
    assert ns == ns[..k] + ns[k..];
    FindAllConcat(ns[..k], ns[k..], AnyElement);
    IdsCons(ns[k..]);
  }
}
