/**
 * The `BeautifulSoup` object both scripts mutate: the top-level node list of the
 * parsed document, and the identity the next `new_tag` receives. Each method is
 * one BeautifulSoup call the scripts make; `Valid` is what makes "the element a
 * reference points to" well defined: identities are distinct and all issued.
 */
module Soups {
  import opened Wrappers
  import opened Tree
  import opened Edits
  import opened Rewrites

  /**
   * The exceptions the scripts' own code raises on a parsed tree: a method called
   * on a `.string` that is None (AttributeError), and `[-1]` of an empty `find_all`
   * result (IndexError).
   */
  datatype Failure = StringIsNone | NoListItem

  /** The consecutive identities `a, a + 1, …, b - 1`. */
  function Range(a: nat, b: nat): (r: seq<nat>)
    requires a <= b
    ensures |r| == b - a && forall i :: 0 <= i < |r| ==> r[i] == a + i
  {
    seq(b - a, i requires 0 <= i < b - a => a + i)
  }

  lemma RangeConcat(a: nat, b: nat, c: nat)
    requires a <= b <= c
    ensures Range(a, b) + Range(b, c) == Range(a, c)
  {
  }

  lemma {:induction false} RangeDistinct(a: nat, b: nat)
    requires a <= b
    ensures Distinct(Range(a, b))
  {
  }

  /** The tree with every identity erased: what parsing into fresh objects may not change. */
  function Anonymous(ns: seq<Node>): (r: seq<Node>)
    ensures |r| == |ns|
  {
    if ns == [] then [] else [AnonymousIn(ns[0])] + Anonymous(ns[1..])
  }

  function AnonymousIn(n: Node): Node
  {
    match n
    case Text(_) => n
    case Element(_, _, _, _, cs) => n.(id := 0, children := Anonymous(cs))
  }

  /**
   * Fresh objects for a parsed tree: the elements get the identities `next`, `next + 1`, …
   * in document order, and nothing else about the tree changes.
   */
  function Renumber(ns: seq<Node>, next: nat): (r: (seq<Node>, nat))
    ensures next <= r.1 && Ids(r.0) == Range(next, r.1)
    ensures Anonymous(r.0) == Anonymous(ns)
  {
    if ns == [] then ([], next)
    else
      var (m, k) := RenumberIn(ns[0], next);
      var (rest, k') := Renumber(ns[1..], k);
      RangeConcat(next, k, k');
      assert ([m] + rest)[1..] == rest;
      ([m] + rest, k')
  }

  function RenumberIn(n: Node, next: nat): (r: (Node, nat))
    ensures next <= r.1 && FindAllIn(r.0, AnyElement) == Range(next, r.1)
    ensures AnonymousIn(r.0) == AnonymousIn(n)
  {
    match n
    case Text(_) => (n, next)
    case Element(_, _, _, _, cs) =>
      var (cs', k) := Renumber(cs, next + 1);
      RangeConcat(next, next + 1, k);
      (n.(id := next, children := cs'), k)
  }

  /** Identities drawn from two bounded lists are bounded. */
  lemma BoundedWithin(r: seq<nat>, a: seq<nat>, b: seq<nat>, bound: nat)
    requires multiset(r) <= multiset(a) + multiset(b)
    requires forall y :: y in a ==> y < bound
    requires forall y :: y in b ==> y < bound
    ensures forall y :: y in r ==> y < bound
  {
    forall y | y in r ensures y < bound {
      assert multiset(r)[y] > 0;
      if multiset(a)[y] > 0 {
        assert y in a;
      } else {
        assert y in b;
      }
    }
  }

  /** Identities are distinct and all below the next one `new_tag` hands out. */
  predicate Issued(ns: seq<Node>, next: nat) {
    Unique(ns) && forall y :: y in Ids(ns) ==> y < next
  }

  class Soup {
    var roots: seq<Node>
    var nextId: nat

    ghost predicate Valid()
      reads this
    {
      Issued(roots, nextId)
    }

    /** `BeautifulSoup(markup, 'html.parser')`, given the parser's tree. */
    constructor (parsed: seq<Node>)
      ensures Valid()
      ensures Anonymous(roots) == Anonymous(parsed)
      ensures (roots, nextId) == Renumber(parsed, 0)
    {
      var (ns, k) := Renumber(parsed, 0);
      RangeDistinct(0, k);
      roots := ns;
      nextId := k;
    }

    /** `soup.new_tag(name, **attrs)`: a detached element with a fresh identity. */
    method NewTag(name: string, attrs: seq<(string, string)>) returns (n: Node)
      requires Valid()
      modifies this
      ensures Valid() && roots == old(roots) && nextId == old(nextId) + 1
      ensures n == Element(old(nextId), name, None, attrs, [])
    {
      n := Element(nextId, name, None, attrs, []);
      nextId := nextId + 1;
    }

    /** `tag['class'] = c` on the element with identity `x`. */
    method SetClass(x: nat, c: Option<seq<string>>)
      requires Valid()
      modifies this
      ensures Valid() && nextId == old(nextId)
      ensures roots == EditAt(old(roots), x, SetClasses(c))
    {
      EditKeepsUnique(roots, x, SetClasses(c));
      BoundedWithin(Ids(EditAt(roots, x, SetClasses(c))), Ids(roots), [], nextId);
      roots := EditAt(roots, x, SetClasses(c));
    }

    /** `tag.string.replace_with(s)` on the element with identity `x`. */
    method ReplaceString(x: nat, s: string)
      requires Valid()
      modifies this
      ensures Valid() && nextId == old(nextId)
      ensures roots == EditAt(old(roots), x, Edit.ReplaceString(s))
    {
      EditKeepsUnique(roots, x, Edit.ReplaceString(s));
      BoundedWithin(Ids(EditAt(roots, x, Edit.ReplaceString(s))), Ids(roots), [], nextId);
      roots := EditAt(roots, x, Edit.ReplaceString(s));
    }

    /** The nodes of `child` may enter the tree: their identities are issued and not in use. */
    ghost predicate Insertable(child: Node)
      reads this
    {
      Unique([child]) && forall y :: y in Ids([child]) ==> y < nextId && y !in Ids(roots)
    }

    /** `tag.insert(0, child)` on the element with identity `x`. */
    method InsertFirst(x: nat, child: Node)
      requires Valid() && Insertable(child)
      modifies this
      ensures Valid() && nextId == old(nextId)
      ensures roots == EditAt(old(roots), x, Edit.InsertFirst(child))
    {
      Grow(x, Edit.InsertFirst(child));
    }

    /** `tag.append(child)` on the element with identity `x`. */
    method Append(x: nat, child: Node)
      requires Valid() && Insertable(child)
      modifies this
      ensures Valid() && nextId == old(nextId)
      ensures roots == EditAt(old(roots), x, Edit.Append(child))
    {
      Grow(x, Edit.Append(child));
    }

    method Grow(x: nat, e: Edit)
      requires Valid() && (e.InsertFirst? || e.Append?) && Insertable(Added(e)[0])
      modifies this
      ensures Valid() && nextId == old(nextId)
      ensures roots == EditAt(old(roots), x, e)
    {
      EditKeepsUnique(roots, x, e);
      var r := EditAt(roots, x, e);
      BoundedWithin(Ids(r), Ids(roots), Ids(Added(e)), nextId);
      roots := r;
    }

    /** `soup.insert(0, child)`: a new first top-level node. */
    method InsertAtTop(child: Node)
      requires Valid() && Insertable(child)
      modifies this
      ensures Valid() && nextId == old(nextId)
      ensures roots == [child] + old(roots)
    {
      FindAllConcat([child], roots, AnyElement);
      DistinctConcat(Ids([child]), Ids(roots));
      roots := [child] + roots;
    }

    /** `tag.decompose()` / `tag.extract()` on the element with identity `x`. */
    method Remove(x: nat)
      requires Valid()
      modifies this
      ensures Valid() && nextId == old(nextId)
      ensures roots == Prune(old(roots), WithId(x))
    {
      var r := Prune(roots, WithId(x));
      PruneIds(roots, WithId(x));
      DistinctMultiset(Ids(roots));
      DistinctMultiset(Ids(r));
      BoundedWithin(Ids(r), Ids(roots), [], nextId);
      roots := r;
    }
  }
}
