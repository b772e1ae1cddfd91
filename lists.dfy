/**
 * The list pass of `convert_md_to_html`: for each `ul` (in the document order of
 * the search made before the loop), its next sibling element is found by skipping
 * the string siblings; when that element is a `p`, it is detached and appended as
 * the last child of the last `li` below the `ul`.
 */
module Lists {
  import opened Wrappers
  import opened Tree
  import opened Edits
  import opened Rewrites
  import opened Soups

  /**
   * Where the element with identity `u` sits: its sibling list and its index there
   * (the first such place in document order).
   */
  function Locate(ns: seq<Node>, u: nat): (r: Option<(seq<Node>, nat)>)
    ensures r.Some? ==> r.value.1 < |r.value.0| && r.value.0[r.value.1].Element? && r.value.0[r.value.1].id == u
    decreases ns, 1
  {
    LocateFrom(ns, 0, u)
  }

  function LocateFrom(ns: seq<Node>, k: nat, u: nat): (r: Option<(seq<Node>, nat)>)
    ensures r.Some? ==> r.value.1 < |r.value.0| && r.value.0[r.value.1].Element? && r.value.0[r.value.1].id == u
    decreases ns, 0, |ns| - k
  {
    if k >= |ns| then None
    else if ns[k].Element? && ns[k].id == u then Some((ns, k))
    else match (if ns[k].Element? then Locate(ns[k].children, u) else None)
      case Some(r) => Some(r)
      case None => LocateFrom(ns, k + 1, u)
  }

  /** Under unique identities, every node of a list is unique on its own. */
  lemma UniqueAt(ns: seq<Node>, k: nat)
    requires Unique(ns) && k < |ns|
    ensures Distinct(FindAllIn(ns[k], AnyElement))
  {
    assert ns == ns[..k] + ns[k..];
    UniqueSplit(ns[..k], ns[k..]);
    UniqueCons(ns[k..]);
  }

  /**
   * Under unique identities, the sibling list `Locate` returns is part of the tree:
   * its elements are the ones their ids refer to.
   */
  lemma {:induction false} LocateFacts(ns: seq<Node>, u: nat)
    requires Unique(ns) && Locate(ns, u).Some?
    ensures var sibs := Locate(ns, u).value.0;
      Unique(sibs) && (forall y :: y in Ids(sibs) ==> y in Ids(ns) && Lookup(ns, y) == Lookup(sibs, y)) &&
      forall k :: 0 <= k < |sibs| && sibs[k].Element? ==> Lookup(ns, sibs[k].id) == Some(sibs[k])
    decreases ns, 1
  {
    LocateFromFacts(ns, 0, u);
  }

  lemma {:induction false} LocateFromFacts(ns: seq<Node>, k: nat, u: nat)
    requires Unique(ns) && LocateFrom(ns, k, u).Some?
    ensures var sibs := LocateFrom(ns, k, u).value.0;
      Unique(sibs) && (forall y :: y in Ids(sibs) ==> y in Ids(ns) && Lookup(ns, y) == Lookup(sibs, y)) &&
      forall j :: 0 <= j < |sibs| && sibs[j].Element? ==> Lookup(ns, sibs[j].id) == Some(sibs[j])
    decreases ns, 0, |ns| - k
  {
    var m := ns[k];
    if m.Element? && m.id == u {
      forall j | 0 <= j < |ns| && ns[j].Element? ensures Lookup(ns, ns[j].id) == Some(ns[j]) {
        LookupTop(ns, j);
      }
    } else if m.Element? && Locate(m.children, u).Some? {
      UniqueAt(ns, k);
      UniqueElement(m);
      LocateFacts(m.children, u);
      var sibs := Locate(m.children, u).value.0;
      assert LocateFrom(ns, k, u).value.0 == sibs;
      forall y | y in Ids(sibs) ensures y in Ids(ns) && Lookup(ns, y) == Lookup(sibs, y) {
        LookupChild(ns, k, y);
      }
      forall j | 0 <= j < |sibs| && sibs[j].Element? ensures Lookup(ns, sibs[j].id) == Some(sibs[j]) {
        LookupFound(m.children, sibs[j].id);
        LookupChild(ns, k, sibs[j].id);
      }
    } else {
      LocateFromFacts(ns, k + 1, u);
    }
  }

  /** Under unique identities, two different siblings share no element. */
  lemma SiblingsDisjoint(sibs: seq<Node>, i: nat, j: nat)
    requires Unique(sibs) && i < j < |sibs|
    ensures forall y :: y in FindAllIn(sibs[i], AnyElement) ==> y !in FindAllIn(sibs[j], AnyElement)
  {
    var a, b := sibs[..j], sibs[j..];
    assert sibs == a + b;
    UniqueSplit(a, b);
    IdsCons(b);
    assert b[0] == sibs[j];
    forall y | y in FindAllIn(sibs[i], AnyElement) ensures y in Ids(a) {
      assert a[i] == sibs[i];
      LookupIn(a, i, y);
    }
  }

  /**
   * `find_next_sibling()`, repeated while the sibling is a string: the index of the
   * first element after index `i`, if any.
   */
  function NextElement(sibs: seq<Node>, i: nat): (r: Option<nat>)
    ensures r.Some? ==> (i < r.value < |sibs| && sibs[r.value].Element? &&
      forall k :: i < k < r.value ==> sibs[k].Text?)
    ensures r.None? ==> forall k :: i < k < |sibs| ==> sibs[k].Text?
    decreases |sibs| - i
  {
    if i + 1 >= |sibs| then None
    else if sibs[i + 1].Element? then Some(i + 1)
    else NextElement(sibs, i + 1)
  }

  /** The sibling scan of the list pass, as the loop the source runs. */
  method NextSiblingElement(sibs: seq<Node>, i: nat) returns (r: Option<nat>)
    ensures r == NextElement(sibs, i)
  {
    var j := i + 1;
    while j < |sibs| && sibs[j].Text?
      invariant i < j
      invariant forall k :: i < k < j && k < |sibs| ==> sibs[k].Text?
    {
      j := j + 1;
    }
    r := if j < |sibs| then Some(j) else None;
    var s := NextElement(sibs, i);
    assert s.Some? ==> !(s.value < j) && !(j < s.value);
  }

  /** One iteration of the list loop, for the `ul` with identity `u`. */
  function AbsorbAfter(ns: seq<Node>, u: nat): (r: Result<seq<Node>, Failure>)
    ensures r.Err? ==> r.error == NoListItem
  {
    match Locate(ns, u)
    case None => Ok(ns)
    case Some((sibs, i)) =>
      match NextElement(sibs, i)
      case None => Ok(ns)
      case Some(j) =>
        if sibs[j].tag != "p" then Ok(ns)
        else
          var lis := FindAll(sibs[i].children, Named({"li"}));
          if lis == [] then Err(NoListItem)
          else Ok(EditAt(Prune(ns, WithId(sibs[j].id)), lis[|lis| - 1], Append(sibs[j])))
  }

  /** The whole list loop over the `ul` ids collected before it starts; the first error stops it. */
  function AbsorbAll(ns: seq<Node>, us: seq<nat>): (r: Result<seq<Node>, Failure>)
    ensures r.Err? ==> r.error == NoListItem
    decreases us
  {
    if us == [] then Ok(ns)
    else match AbsorbAfter(ns, us[0])
      case Ok(m) => AbsorbAll(m, us[1..])
      case Err(e) => Err(e)
  }

  /**
   * Where a stray `p` and the last `li` are: under unique identities the paragraph
   * is the element its id refers to, and the `li` is in the tree but not under it.
   */
  lemma StrayPlaces(ns: seq<Node>, u: nat, sibs: seq<Node>, i: nat, j: nat)
    requires Unique(ns) && Locate(ns, u) == Some((sibs, i)) && NextElement(sibs, i) == Some(j)
    requires FindAll(sibs[i].children, Named({"li"})) != []
    ensures var lis := FindAll(sibs[i].children, Named({"li"}));
      Lookup(ns, sibs[j].id) == Some(sibs[j]) &&
      lis[|lis| - 1] in Ids(ns) && lis[|lis| - 1] !in Ids([sibs[j]])
  {
    var lis := FindAll(sibs[i].children, Named({"li"}));
    var li := lis[|lis| - 1];
    LocateFacts(ns, u);
    FindAllInIds(sibs[i].children, Named({"li"}));
    assert FindAllIn(sibs[i], AnyElement) == [sibs[i].id] + Ids(sibs[i].children);
    SiblingsDisjoint(sibs, i, j);
    FindAllOne(sibs[j], AnyElement);
    LookupIn(sibs, i, li);
  }

  /**
   * Moving the element with identity `x` to the end of the children of element `t`
   * outside it: its ids leave the tree when it is detached, `t` stays, and once it is
   * appended every id is present as before.
   */
  lemma MoveKeepsIds(ns: seq<Node>, x: nat, t: nat)
    requires Unique(ns) && Lookup(ns, x).Some?
    requires t in Ids(ns) && t !in Ids([Lookup(ns, x).value])
    ensures var p := Lookup(ns, x).value;
      var rest := Prune(ns, WithId(x));
      Unique([p]) && Unique(rest) &&
      (forall y :: y in Ids([p]) ==> y in Ids(ns) && y !in Ids(rest)) &&
      t in Ids(rest) &&
      multiset(Ids(EditAt(rest, t, Append(p)))) == multiset(Ids(ns))
  {
    var p := Lookup(ns, x).value;
    PruneDetaches(ns, x);
    var rest := Prune(ns, WithId(x));
    EditFindAll(rest, t, Append(p), AnyElement);
  }

  /** The move of a stray `p` into the last `li`, in terms of `MoveKeepsIds`. */
  lemma StrayMove(ns: seq<Node>, u: nat, sibs: seq<Node>, i: nat, j: nat)
    requires Unique(ns) && Locate(ns, u) == Some((sibs, i)) && NextElement(sibs, i) == Some(j)
    requires FindAll(sibs[i].children, Named({"li"})) != []
    ensures var p, lis := sibs[j], FindAll(sibs[i].children, Named({"li"}));
      var rest := Prune(ns, WithId(p.id));
      Unique([p]) && Unique(rest) &&
      (forall y :: y in Ids([p]) ==> y in Ids(ns) && y !in Ids(rest)) &&
      lis[|lis| - 1] in Ids(rest) &&
      multiset(Ids(EditAt(rest, lis[|lis| - 1], Append(p)))) == multiset(Ids(ns))
  {
    var lis := FindAll(sibs[i].children, Named({"li"}));
    StrayPlaces(ns, u, sibs, i, j);
    MoveKeepsIds(ns, sibs[j].id, lis[|lis| - 1]);
  }

  /** The list pass creates and loses no element. */
  lemma AbsorbKeepsElements(ns: seq<Node>, u: nat)
    requires Unique(ns) && AbsorbAfter(ns, u).Ok?
    ensures multiset(Ids(AbsorbAfter(ns, u).value)) == multiset(Ids(ns))
    ensures Unique(AbsorbAfter(ns, u).value)
  {
    var r := AbsorbAfter(ns, u).value;
    if r != ns {
      var (sibs, i) := Locate(ns, u).value;
      StrayMove(ns, u, sibs, i, NextElement(sibs, i).value);
    }
    DistinctMultiset(Ids(ns));
    DistinctMultiset(Ids(r));
  }

  lemma {:induction false} AbsorbAllKeepsElements(ns: seq<Node>, us: seq<nat>)
    requires Unique(ns) && AbsorbAll(ns, us).Ok?
    ensures multiset(Ids(AbsorbAll(ns, us).value)) == multiset(Ids(ns))
    decreases us
  {
    if us != [] {
      AbsorbKeepsElements(ns, us[0]);
      AbsorbAllKeepsElements(AbsorbAfter(ns, us[0]).value, us[1..]);
    }
  }

  /**
   * The stray paragraph `p` has moved into the `li` with identity `li`: that `li`
   * is as before with `p` appended, and `p` is in the tree exactly once (so no
   * longer where it was); no element came or went.
   */
  predicate MovedInto(ns: seq<Node>, r: Result<seq<Node>, Failure>, p: Node, li: nat) {
    r.Ok? && p.Element? && Lookup(ns, li).Some? && Lookup(ns, li).value.tag == "li" &&
    Lookup(r.value, li) == Some(Lookup(ns, li).value.(children := Lookup(ns, li).value.children + [p])) &&
    Unique(r.value) && multiset(Ids(r.value)) == multiset(Ids(ns)) && multiset(Ids(r.value))[p.id] == 1
  }

  /**
   * One iteration of the list loop wherever the `ul` is, at the top level or
   * nested: no change unless its next element sibling is a `p`; then IndexError
   * when the `ul` holds no `li`, and otherwise the `p` moves into the last `li`.
   */
  lemma AbsorbAnywhere(ns: seq<Node>, u: nat, sibs: seq<Node>, i: nat)
    requires Unique(ns) && Locate(ns, u) == Some((sibs, i))
    ensures var lis := FindAll(sibs[i].children, Named({"li"}));
      match NextElement(sibs, i)
      case None => AbsorbAfter(ns, u) == Ok(ns)
      case Some(j) =>
        if sibs[j].tag != "p" then AbsorbAfter(ns, u) == Ok(ns)
        else if lis == [] then AbsorbAfter(ns, u) == Err(NoListItem)
        else MovedInto(ns, AbsorbAfter(ns, u), sibs[j], lis[|lis| - 1])
  {
    var lis := FindAll(sibs[i].children, Named({"li"}));
    var next := NextElement(sibs, i);
    if next.Some? && sibs[next.value].tag == "p" && lis != [] {
      AbsorbMoves(ns, u, sibs, i, next.value);
    }
  }

  /**
   * The last `li` below the `ul` at `sibs[i]` is an `li` of the tree, and it and
   * the next element sibling `sibs[j]` lie outside each other.
   */
  lemma LastListItem(ns: seq<Node>, u: nat, sibs: seq<Node>, i: nat, j: nat)
    requires Unique(ns) && Locate(ns, u) == Some((sibs, i)) && NextElement(sibs, i) == Some(j)
    requires FindAll(sibs[i].children, Named({"li"})) != []
    ensures var lis := FindAll(sibs[i].children, Named({"li"}));
      var li := lis[|lis| - 1];
      Lookup(ns, li).Some? && Lookup(ns, li).value.tag == "li" &&
      Lookup(ns, sibs[j].id) == Some(sibs[j]) &&
      sibs[j].id !in FindAllIn(Lookup(ns, li).value, AnyElement) &&
      li !in FindAllIn(sibs[j], AnyElement)
  {
    var lis := FindAll(sibs[i].children, Named({"li"}));
    LastListItemFound(ns, u, sibs, i);
    LocateFacts(ns, u);
    SiblingsDisjoint(sibs, i, j);
  }

  /** The last `li` below `sibs[i]` is an `li` of the tree, and its elements are below `sibs[i]`. */
  lemma LastListItemFound(ns: seq<Node>, u: nat, sibs: seq<Node>, i: nat)
    requires Unique(ns) && Locate(ns, u) == Some((sibs, i))
    requires FindAll(sibs[i].children, Named({"li"})) != []
    ensures var lis := FindAll(sibs[i].children, Named({"li"}));
      var li := lis[|lis| - 1];
      Lookup(ns, li).Some? && Lookup(ns, li).value.tag == "li" && li in FindAllIn(sibs[i], AnyElement) &&
      forall z :: z in FindAllIn(Lookup(ns, li).value, AnyElement) ==> z in FindAllIn(sibs[i], AnyElement)
  {
    var cs := sibs[i].children;
    var lis := FindAll(cs, Named({"li"}));
    var li := lis[|lis| - 1];
    LocateFacts(ns, u);
    UniqueAt(sibs, i);
    UniqueElement(sibs[i]);
    FindAllInIds(cs, Named({"li"}));
    assert FindAllIn(sibs[i], AnyElement) == [sibs[i].id] + Ids(cs);
    IdsAt(sibs, i, li);
    LookupIn(sibs, i, li);
    assert FindIn(sibs[i], WithId(li)) == Lookup(cs, li);
    LookupFindAll(cs, Named({"li"}), li);
    FoundWithin(cs, WithId(li));
  }

  /** The move of `AbsorbAnywhere`, where the next element sibling is a `p` and an `li` exists. */
  lemma AbsorbMoves(ns: seq<Node>, u: nat, sibs: seq<Node>, i: nat, j: nat)
    requires Unique(ns) && Locate(ns, u) == Some((sibs, i)) && NextElement(sibs, i) == Some(j)
    requires sibs[j].tag == "p" && FindAll(sibs[i].children, Named({"li"})) != []
    ensures var lis := FindAll(sibs[i].children, Named({"li"}));
      MovedInto(ns, AbsorbAfter(ns, u), sibs[j], lis[|lis| - 1])
  {
    LastListItem(ns, u, sibs, i, j);
    AbsorbAfterMove(ns, u, sibs, i, j);
    MovedLookup(ns, u, sibs, i, j);
    MovedCounts(ns, u, sibs, i, j);
  }

  /** The last `li`, once the paragraph is detached and appended to it. */
  lemma MovedLookup(ns: seq<Node>, u: nat, sibs: seq<Node>, i: nat, j: nat)
    requires Unique(ns) && Locate(ns, u) == Some((sibs, i)) && NextElement(sibs, i) == Some(j)
    requires FindAll(sibs[i].children, Named({"li"})) != []
    ensures var lis := FindAll(sibs[i].children, Named({"li"}));
      var li, p := lis[|lis| - 1], sibs[j];
      Lookup(ns, li).Some? &&
      Lookup(EditAt(Prune(ns, WithId(p.id)), li, Append(p)), li) ==
        Some(Lookup(ns, li).value.(children := Lookup(ns, li).value.children + [p]))
  {
    var lis := FindAll(sibs[i].children, Named({"li"}));
    var li, p := lis[|lis| - 1], sibs[j];
    LastListItem(ns, u, sibs, i, j);
    StrayMove(ns, u, sibs, i, j);
    PruneLookup(ns, p.id, li);
    FindAllOne(p, AnyElement);
    LookupEdited(Prune(ns, WithId(p.id)), li, Append(p));
  }

  /** After the move, the paragraph is in the tree once and no element came or went. */
  lemma MovedCounts(ns: seq<Node>, u: nat, sibs: seq<Node>, i: nat, j: nat)
    requires Unique(ns) && Locate(ns, u) == Some((sibs, i)) && NextElement(sibs, i) == Some(j)
    requires sibs[j].tag == "p" && FindAll(sibs[i].children, Named({"li"})) != []
    ensures AbsorbAfter(ns, u).Ok?
    ensures var r := AbsorbAfter(ns, u).value;
      Unique(r) && multiset(Ids(r)) == multiset(Ids(ns)) && multiset(Ids(r))[sibs[j].id] == 1
  {
    AbsorbKeepsElements(ns, u);
    LocateFacts(ns, u);
    LookupFound(ns, sibs[j].id);
    OnceIn(Ids(AbsorbAfter(ns, u).value), Ids(ns), sibs[j].id);
  }

  /** What `AbsorbAfter` returns when it moves a paragraph. */
  lemma AbsorbAfterMove(ns: seq<Node>, u: nat, sibs: seq<Node>, i: nat, j: nat)
    requires Locate(ns, u) == Some((sibs, i)) && NextElement(sibs, i) == Some(j)
    requires sibs[j].tag == "p" && FindAll(sibs[i].children, Named({"li"})) != []
    ensures var lis := FindAll(sibs[i].children, Named({"li"}));
      AbsorbAfter(ns, u) == Ok(EditAt(Prune(ns, WithId(sibs[j].id)), lis[|lis| - 1], Append(sibs[j])))
  {
  }

  /** In a list of distinct ids holding the same ids as a list with `y`, `y` occurs once. */
  lemma OnceIn(r: seq<nat>, s: seq<nat>, y: nat)
    requires Distinct(r) && multiset(r) == multiset(s) && y in s
    ensures multiset(r)[y] == 1
  {
    DistinctMultiset(r);
    assert y in multiset(s);
  }

  /** The list loop of `convert_md_to_html`, on the shared soup. */
  method AbsorbStrayParagraphs(soup: Soup) returns (err: Option<Failure>)
    requires soup.Valid()
    modifies soup
    ensures soup.Valid() && soup.nextId == old(soup.nextId)
    ensures match AbsorbAll(old(soup.roots), FindAll(old(soup.roots), Named({"ul"})))
      case Ok(r) => err == None && soup.roots == r
      case Err(e) => err == Some(e)
  {
    var uls := FindAll(soup.roots, Named({"ul"}));
    ghost var goal := AbsorbAll(soup.roots, uls);
    var k := 0;
    while k < |uls|
      invariant 0 <= k <= |uls|
      invariant soup.Valid() && soup.nextId == old(soup.nextId)
      invariant AbsorbAll(soup.roots, uls[k..]) == goal
    {
      assert uls[k..][0] == uls[k] && uls[k..][1..] == uls[k + 1..];
      err := AbsorbOne(soup, uls[k]);
      if err.Some? {
        return;
      }
      k := k + 1;
    }
    return None;
  }

  /** One iteration of the list loop, for the `ul` with identity `u`. */
  method AbsorbOne(soup: Soup, u: nat) returns (err: Option<Failure>)
    requires soup.Valid()
    modifies soup
    ensures soup.Valid() && soup.nextId == old(soup.nextId)
    ensures match AbsorbAfter(old(soup.roots), u)
      case Ok(r) => err == None && soup.roots == r
      case Err(e) => err == Some(e)
  {
    ghost var before := soup.roots;
    var loc := Locate(soup.roots, u);
    if loc.Some? {
      var sibs, i := loc.value.0, loc.value.1;
      var j := NextSiblingElement(sibs, i);
      if j.Some? && sibs[j.value].tag == "p" {
        var lis := FindAll(sibs[i].children, Named({"li"}));
        if lis == [] {
          return Some(NoListItem);
        }
        var p := sibs[j.value];
        StrayMove(before, u, sibs, i, j.value);
        soup.Remove(p.id);
        soup.Append(lis[|lis| - 1], p);
      }
    }
    return None;
  }

  // ---------------------------------------------------------------------------
  // What the pass does to a `ul` among top-level nodes, after any others

  predicate AllText(ns: seq<Node>) {
    forall k :: 0 <= k < |ns| ==> ns[k].Text?
  }

  /** An id absent from a list is not located in it. */
  lemma {:induction false} LocateNone(ns: seq<Node>, u: nat)
    requires u !in Ids(ns)
    ensures Locate(ns, u).None?
    decreases ns, 1
  {
    LocateFromNone(ns, 0, u);
  }

  lemma {:induction false} LocateFromNone(ns: seq<Node>, k: nat, u: nat)
    requires u !in Ids(ns)
    ensures LocateFrom(ns, k, u).None?
    decreases ns, 0, |ns| - k
  {
    if k < |ns| {
      if u in FindAllIn(ns[k], AnyElement) {
        IdsAt(ns, k, u);
      }
      LocateSkips(ns, k, u);
      LocateFromNone(ns, k + 1, u);
    }
  }

  /** The search moves past a node that does not hold the id. */
  lemma {:induction false} LocateSkips(ns: seq<Node>, k: nat, u: nat)
    requires k < |ns| && u !in FindAllIn(ns[k], AnyElement)
    ensures LocateFrom(ns, k, u) == LocateFrom(ns, k + 1, u)
    decreases ns, 0, 0
  {
    if ns[k].Element? {
      assert FindAllIn(ns[k], AnyElement) == [ns[k].id] + Ids(ns[k].children);
      LocateNone(ns[k].children, u);
    }
  }

  /** A `ul` at index `|pre|` of the top-level list, not inside `pre`, is located there. */
  lemma {:induction false} LocateAfter(pre: seq<Node>, ul: Node, after: seq<Node>, k: nat)
    requires ul.Element? && ul.id !in Ids(pre) && k <= |pre|
    ensures LocateFrom(pre + [ul] + after, k, ul.id) == Some((pre + [ul] + after, |pre|))
    decreases |pre| - k
  {
    var ns := pre + [ul] + after;
    if k < |pre| {
      assert ns[k] == pre[k];
      if ul.id in FindAllIn(pre[k], AnyElement) {
        IdsAt(pre, k, ul.id);
      }
      LocateSkips(ns, k, ul.id);
      LocateAfter(pre, ul, after, k + 1);
    } else {
      assert ns[|pre|] == ul;
    }
  }

  /**
   * A `ul` in the top-level list followed by strings and then an element: that
   * element is its next element sibling.
   */
  lemma ListSiblings(pre: seq<Node>, ul: Node, texts: seq<Node>, p: Node, rest: seq<Node>)
    requires ul.Element? && ul.id !in Ids(pre) && AllText(texts) && p.Element?
    ensures var ns := pre + [ul] + texts + [p] + rest;
      var k := |pre| + |texts| + 1;
      Locate(ns, ul.id) == Some((ns, |pre|)) && NextElement(ns, |pre|) == Some(k) && ns[k] == p
  {
    Regroup(pre, ul, texts, p, rest);
    LocateAfter(pre, ul, texts + [p] + rest, 0);
    NextAcrossTexts(pre, ul, texts, p, rest);
  }

  /** Strings between the `ul` at `|pre|` and an element make that element the next one. */
  lemma NextAcrossTexts(pre: seq<Node>, ul: Node, texts: seq<Node>, p: Node, rest: seq<Node>)
    requires AllText(texts) && p.Element?
    ensures NextElement(pre + [ul] + texts + [p] + rest, |pre|) == Some(|pre| + |texts| + 1)
  {
    var ns := pre + [ul] + texts + [p] + rest;
    Regroup(pre, ul, texts, p, rest);
    NextPastTexts(ns, |pre|, |pre| + |texts| + 1);
  }

  /** Where the parts of `a + [x] + t + [y] + r` sit once it is put together. */
  lemma Regroup<T>(a: seq<T>, x: T, t: seq<T>, y: T, r: seq<T>)
    ensures var s := a + [x] + t + [y] + r;
      s == a + [x] + (t + [y] + r) && s[|a| + |t| + 1] == y &&
      forall m :: |a| < m < |a| + |t| + 1 ==> s[m] == t[m - |a| - 1]
  {
  }

  /** The first element past index `i` is at `k` when only strings lie between. */
  lemma {:induction false} NextPastTexts(ns: seq<Node>, i: nat, k: nat)
    requires i < k < |ns| && ns[k].Element? && forall m :: i < m < k ==> ns[m].Text?
    ensures NextElement(ns, i) == Some(k)
    decreases k - i
  {
    if i + 1 < k {
      NextPastTexts(ns, i + 1, k);
    }
  }

  /** A `ul` whose next element sibling is not a `p`, or that has none, causes no change. */
  lemma AbsorbNotParagraph(pre: seq<Node>, ul: Node, texts: seq<Node>, rest: seq<Node>)
    requires ul.Element? && ul.id !in Ids(pre) && AllText(texts)
    requires rest == [] || (rest[0].Element? && rest[0].tag != "p")
    ensures AbsorbAfter(pre + [ul] + texts + rest, ul.id) == Ok(pre + [ul] + texts + rest)
  {
    var ns := pre + [ul] + texts + rest;
    if rest != [] {
      ListSiblings(pre, ul, texts, rest[0], rest[1..]);
      assert ns == pre + [ul] + texts + [rest[0]] + rest[1..];
    } else {
      assert ns == pre + [ul] + texts;
      LocateAfter(pre, ul, texts, 0);
      assert forall m :: |pre| < m < |ns| ==> ns[m] == texts[m - |pre| - 1];
      assert NextElement(ns, |pre|).None?;
    }
  }

  /** A `ul` followed (past strings) by a `p` but holding no `li`: IndexError. */
  lemma AbsorbNoListItem(pre: seq<Node>, ul: Node, texts: seq<Node>, p: Node, rest: seq<Node>)
    requires ul.Element? && ul.id !in Ids(pre) && AllText(texts) && p.Element? && p.tag == "p"
    requires FindAll(ul.children, Named({"li"})) == []
    ensures AbsorbAfter(pre + [ul] + texts + [p] + rest, ul.id) == Err(NoListItem)
  {
    ListSiblings(pre, ul, texts, p, rest);
  }

  /** Detaching the paragraph that follows the `ul` removes it from the top-level list only. */
  lemma DetachParagraph(pre: seq<Node>, ul: Node, texts: seq<Node>, p: Node, rest: seq<Node>)
    requires ul.Element? && AllText(texts) && p.Element?
    requires Unique(pre + [ul] + texts + [p] + rest)
    ensures Prune(pre + [ul] + texts + [p] + rest, WithId(p.id)) == pre + [ul] + texts + rest
    ensures Unique(pre + [ul] + texts + rest)
    ensures forall y :: y in FindAllIn(ul, AnyElement) ==> y !in Ids(pre) && y !in Ids(rest)
  {
    var a := pre + [ul] + texts;
    assert pre + [ul] + texts + [p] + rest == a + ([p] + rest);
    UniqueSplit(a, [p] + rest);
    UniqueSplit([p], rest);
    FindAllConcat([p], rest, AnyElement);
    FindAllOne(p, AnyElement);
    assert FindAllIn(p, AnyElement) == [p.id] + Ids(p.children);
    assert p.id !in Ids(a) && p.id !in Ids(rest);
    PruneAround(a, p, rest);
    FindAllConcat(a, rest, AnyElement);
    DistinctConcat(Ids(a), Ids(rest));
    ListPartIds(pre, ul, texts);
  }

  /** The elements of `pre + [ul] + texts`: those of `pre`, then those of `ul`, which share none. */
  lemma ListPartIds(pre: seq<Node>, ul: Node, texts: seq<Node>)
    requires AllText(texts) && Unique(pre + [ul] + texts)
    ensures Ids(pre + [ul] + texts) == Ids(pre) + FindAllIn(ul, AnyElement)
    ensures forall y :: y in FindAllIn(ul, AnyElement) ==> y !in Ids(pre)
  {
    FindAllConcat(pre + [ul], texts, AnyElement);
    FindAllConcat(pre, [ul], AnyElement);
    TextsUntouched(texts, 0, 0, SetClasses(None));
    FindAllOne(ul, AnyElement);
    UniqueSplit(pre + [ul], texts);
    UniqueSplit(pre, [ul]);
  }

  /** Removing `p` from `a + [p] + rest` when its id occurs nowhere else. */
  lemma PruneAround(a: seq<Node>, p: Node, rest: seq<Node>)
    requires p.Element? && p.id !in Ids(a) && p.id !in Ids(rest)
    ensures Prune(a + [p] + rest, WithId(p.id)) == a + rest
  {
    WithIdIsIds(a, p.id);
    WithIdIsIds(rest, p.id);
    PruneOnly(a, p, rest, WithId(p.id));
  }

  /** Removing the one selected node between two parts that hold none. */
  lemma PruneOnly(a: seq<Node>, x: Node, b: seq<Node>, q: Query)
    requires Matches(q, x) && FindAll(a, q) == [] && FindAll(b, q) == []
    ensures Prune(a + [x] + b, q) == a + b
  {
    PruneNothing(a, q);
    PruneNothing(b, q);
    assert a + [x] + b == a + ([x] + b);
    PruneConcat(a, [x] + b, q);
    assert Prune([x] + b, q) == Prune(b, q) by {
      assert ([x] + b)[0] == x && ([x] + b)[1..] == b;
    }
  }

  /**
   * A `ul` in the top-level list followed (past strings) by a `p`: the `p` leaves
   * the list and becomes the last child of the last `li` below the `ul`, which may
   * be nested; everything else stays where it was.
   */
  lemma AbsorbParagraph(pre: seq<Node>, ul: Node, texts: seq<Node>, p: Node, rest: seq<Node>)
    requires ul.Element? && AllText(texts) && p.Element? && p.tag == "p"
    requires Unique(pre + [ul] + texts + [p] + rest)
    requires FindAll(ul.children, Named({"li"})) != []
    ensures var lis := FindAll(ul.children, Named({"li"}));
      AbsorbAfter(pre + [ul] + texts + [p] + rest, ul.id) ==
        Ok(pre + [EditIn(ul, lis[|lis| - 1], Append(p))] + texts + rest)
  {
    var lis := FindAll(ul.children, Named({"li"}));
    var li := lis[|lis| - 1];
    DetachParagraph(pre, ul, texts, p, rest);
    assert ul.id in FindAllIn(ul, AnyElement);
    ListSiblings(pre, ul, texts, p, rest);
    FindAllInIds(ul.children, Named({"li"}));
    assert FindAllIn(ul, AnyElement) == [ul.id] + Ids(ul.children);
    EditAround(pre, ul, texts, rest, li, Append(p));
  }

  /** An edit on an element under `ul` changes `ul` alone among the top-level nodes. */
  lemma EditAround(pre: seq<Node>, ul: Node, texts: seq<Node>, rest: seq<Node>, x: nat, e: Edit)
    requires AllText(texts) && x !in Ids(pre) && x !in Ids(rest)
    ensures EditAt(pre + [ul] + texts + rest, x, e) == pre + [EditIn(ul, x, e)] + texts + rest
  {
    EditAbsent(pre, x, e);
    EditAbsent(rest, x, e);
    TextsUntouched(texts, 0, x, e);
    EditAtConcat(pre + [ul] + texts, rest, x, e);
    EditAtConcat(pre + [ul], texts, x, e);
    EditAtConcat(pre, [ul], x, e);
    assert EditAt([ul], x, e) == [EditIn(ul, x, e)];
  }

  /** Strings hold no element: removals and edits by identity leave them alone. */
  lemma {:induction false} TextsUntouched(texts: seq<Node>, x: nat, y: nat, e: Edit)
    requires AllText(texts)
    ensures Prune(texts, WithId(x)) == texts && EditAt(texts, y, e) == texts && Ids(texts) == []
  {
    if texts != [] {
      TextsUntouched(texts[1..], x, y, e);
      assert EditIn(texts[0], y, e) == texts[0];
      assert !Matches(WithId(x), texts[0]) && PruneIn(texts[0], WithId(x)) == texts[0];
      assert FindAllIn(texts[0], AnyElement) == [];
    }
  }

  // ---------------------------------------------------------------------------
  // A `p` moved next to a nested `ul`: the `ul`s are collected before any move,
  // and the last `li` is the last in document order, nested lists included

  /**
   * `<ul><li>A<ul></ul></li></ul><p>X</p>`: the `p` goes into the only `li`,
   * where it follows the empty nested `ul`; that `ul` is visited next, finds the
   * `p` as its next element and has no `li`, so the pass fails.
   */
  lemma NestedEmptyListFails()
    ensures var inner := Element(2, "ul", None, [], []);
      var li := Element(1, "li", None, [], [Text("A"), inner]);
      var p := Element(3, "p", None, [], [Text("X")]);
      var ns := [Element(0, "ul", None, [], [li]), p];
      FindAll(ns, Named({"ul"})) == [0, 2] &&
      AbsorbAfter(ns, 0) == Ok([Element(0, "ul", None, [], [li.(children := li.children + [p])])]) &&
      AbsorbAll(ns, [0, 2]) == Err(NoListItem)
  {
    var inner := Element(2, "ul", None, [], []);
    var li := Element(1, "li", None, [], [Text("A"), inner]);
    var p := Element(3, "p", None, [], [Text("X")]);
    var ul := Element(0, "ul", None, [], [li]);
    var li' := li.(children := li.children + [p]);
    var moved := [ul.(children := [li'])];
    NestedFound(ul, li, inner, p);
    OnlyItemGetsParagraph(ul, li, inner, p);
    assert li'.children == [Text("A"), inner, p];
    InnerLocated(ul.(children := [li']), li', inner);
    assert NextElement(li'.children, 1) == Some(2);
    assert FindAll(inner.children, Named({"li"})) == [];
    assert AbsorbAfter(moved, 2) == Err(NoListItem);
    assert [0, 2][1..] == [2];
  }

  lemma OnlyItemGetsParagraph(ul: Node, li: Node, inner: Node, p: Node)
    requires inner == Element(2, "ul", None, [], [])
    requires li == Element(1, "li", None, [], [Text("A"), inner])
    requires ul == Element(0, "ul", None, [], [li]) && p == Element(3, "p", None, [], [Text("X")])
    ensures AbsorbAfter([ul, p], 0) == Ok([ul.(children := [li.(children := li.children + [p])])])
  {
    var e := Append(p);
    var li' := li.(children := li.children + [p]);
    FindAllPair(Text("A"), inner, Named({"li"}));
    FindAllOne(li, Named({"li"}));
    FindAllPair(Text("A"), inner, AnyElement);
    FindAllOne(li, AnyElement);
    assert FindAllIn(ul, AnyElement) == [0, 1, 2];
    PruneParagraphAfter(ul, p);
    assert EditIn(inner, 1, e) == inner;
    EditAtPair(Text("A"), inner, 1, e);
    assert EditIn(li, 1, e) == li';
    EditAtOne(li, 1, e);
    EditAtOne(ul, 1, e);
    assert LocateFrom([ul, p], 0, 0) == Some(([ul, p], 0));
    assert NextElement([ul, p], 0) == Some(1);
  }

  /**
   * `<ul><li>A<ul><li>B</li></ul></li></ul><p>X</p>`: the last `li` of the
   * outer `ul` is the nested one, so the `p` goes there; the nested `ul` then
   * has no next element and nothing else moves.
   */
  lemma NestedListItemGetsParagraph()
    ensures var li3 := Element(3, "li", None, [], [Text("B")]);
      var inner := Element(2, "ul", None, [], [li3]);
      var li := Element(1, "li", None, [], [Text("A"), inner]);
      var p := Element(4, "p", None, [], [Text("X")]);
      var ns := [Element(0, "ul", None, [], [li]), p];
      var inner' := inner.(children := [li3.(children := [Text("B"), p])]);
      FindAll(ns, Named({"ul"})) == [0, 2] &&
      AbsorbAll(ns, [0, 2]) == Ok([Element(0, "ul", None, [], [li.(children := [Text("A"), inner'])])])
  {
    var li3 := Element(3, "li", None, [], [Text("B")]);
    var inner := Element(2, "ul", None, [], [li3]);
    var li := Element(1, "li", None, [], [Text("A"), inner]);
    var p := Element(4, "p", None, [], [Text("X")]);
    var ul := Element(0, "ul", None, [], [li]);
    var inner' := inner.(children := [li3.(children := [Text("B"), p])]);
    var li' := li.(children := [Text("A"), inner']);
    var moved := [ul.(children := [li'])];
    FindAllOne(Text("B"), Named({"ul"}));
    FindAllOne(li3, Named({"ul"}));
    NestedFound(ul, li, inner, p);
    NestedItemGetsParagraph(ul, li, inner, li3, p);
    InnerLocated(ul.(children := [li']), li', inner');
    assert NextElement(li'.children, 1) == None;
    assert AbsorbAfter(moved, 2) == Ok(moved);
    assert [0, 2][1..] == [2];
  }

  lemma NestedItemGetsParagraph(ul: Node, li: Node, inner: Node, li3: Node, p: Node)
    requires li3 == Element(3, "li", None, [], [Text("B")]) && inner == Element(2, "ul", None, [], [li3])
    requires li == Element(1, "li", None, [], [Text("A"), inner])
    requires ul == Element(0, "ul", None, [], [li]) && p == Element(4, "p", None, [], [Text("X")])
    ensures var inner' := inner.(children := [li3.(children := [Text("B"), p])]);
      AbsorbAfter([ul, p], 0) == Ok([ul.(children := [li.(children := [Text("A"), inner'])])])
  {
    var e := Append(p);
    var li3' := li3.(children := [Text("B"), p]);
    var inner' := inner.(children := [li3']);
    var li' := li.(children := [Text("A"), inner']);
    NestedItems(li, inner, li3, Named({"li"}));
    assert FindAll(ul.children, Named({"li"})) == [1, 3] by {
      FindAllOne(li, Named({"li"}));
    }
    NestedItems(li, inner, li3, AnyElement);
    FindAllOne(li, AnyElement);
    assert FindAllIn(ul, AnyElement) == [0, 1, 2, 3];
    PruneParagraphAfter(ul, p);
    EditAtOne(Text("B"), 3, e);
    assert EditIn(li3, 3, e) == li3';
    EditAtOne(li3, 3, e);
    assert EditIn(inner, 3, e) == inner';
    EditAtPair(Text("A"), inner, 3, e);
    assert EditIn(li, 3, e) == li';
    EditAtOne(li, 3, e);
    EditAtOne(ul, 3, e);
    assert LocateFrom([ul, p], 0, 0) == Some(([ul, p], 0));
    assert NextElement([ul, p], 0) == Some(1);
  }

  /** What a search finds in the outer `li` of the second example. */
  lemma NestedItems(li: Node, inner: Node, li3: Node, q: Query)
    requires li3 == Element(3, "li", None, [], [Text("B")]) && inner == Element(2, "ul", None, [], [li3])
    requires li == Element(1, "li", None, [], [Text("A"), inner])
    ensures FindAllIn(li, q) ==
      (if Matches(q, li) then [1] else []) + (if Matches(q, inner) then [2] else []) + (if Matches(q, li3) then [3] else [])
  {
    FindAllOne(Text("B"), q);
    FindAllOne(li3, q);
    FindAllPair(Text("A"), inner, q);
  }

  /** The `ul`s of both example documents: the outer one and the nested one. */
  lemma NestedFound(ul: Node, li: Node, inner: Node, p: Node)
    requires inner.Element? && inner.id == 2 && inner.tag == "ul"
    requires FindAll(inner.children, Named({"ul"})) == []
    requires li == Element(1, "li", None, [], [Text("A"), inner])
    requires ul == Element(0, "ul", None, [], [li]) && p.Element? && p.tag == "p" && p.children == [Text("X")]
    ensures FindAll([ul, p], Named({"ul"})) == [0, 2]
  {
    var q := Named({"ul"});
    assert FindAllIn(inner, q) == [2];
    FindAllPair(Text("A"), inner, q);
    FindAllOne(li, q);
    FindAllOne(Text("X"), q);
    FindAllPair(ul, p, q);
  }

  /** Detaching the `p` after `ul` leaves `ul` alone when the `p` is not inside it. */
  lemma PruneParagraphAfter(ul: Node, p: Node)
    requires p.Element? && ul.Element? && p.id !in FindAllIn(ul, AnyElement)
    ensures Prune([ul, p], WithId(p.id)) == [ul]
  {
    WithIdIsIdsIn(ul, p.id);
    PruneNothingIn(ul, WithId(p.id));
    assert [ul, p][1..] == [p];
    assert [p][1..] == [];
    assert Prune([p], WithId(p.id)) == [];
  }

  /** After the first move the nested `ul` is found inside the outer `li`. */
  lemma InnerLocated(ul: Node, li: Node, inner: Node)
    requires inner.Element? && inner.id == 2
    requires li.Element? && li.id == 1 && |li.children| >= 2 && li.children[0] == Text("A") && li.children[1] == inner
    requires ul.Element? && ul.id == 0 && ul.children == [li]
    ensures Locate([ul], 2) == Some((li.children, 1))
  {
    assert LocateFrom(li.children, 1, 2) == Some((li.children, 1));
    assert LocateFrom(li.children, 0, 2) == Some((li.children, 1));
    assert Locate(li.children, 2) == Some((li.children, 1));
    assert LocateFrom([li], 0, 2) == Some((li.children, 1));
    assert Locate(ul.children, 2) == Some((li.children, 1));
    assert LocateFrom([ul], 0, 2) == Some((li.children, 1));
  }

  lemma FindAllPair(a: Node, b: Node, q: Query)
    ensures FindAll([a, b], q) == FindAllIn(a, q) + FindAllIn(b, q)
  {
    assert [a, b] == [a] + [b];
    FindAllConcat([a], [b], q);
    FindAllOne(a, q);
    FindAllOne(b, q);
  }

  lemma EditAtOne(n: Node, x: nat, e: Edit)
    ensures EditAt([n], x, e) == [EditIn(n, x, e)]
  {
    assert [n][1..] == [];
  }

  lemma EditAtPair(a: Node, b: Node, x: nat, e: Edit)
    ensures EditAt([a, b], x, e) == [EditIn(a, x, e), EditIn(b, x, e)]
  {
    assert [a, b][1..] == [b];
    EditAtOne(b, x, e);
  }
}
