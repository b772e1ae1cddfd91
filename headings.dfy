/**
 * The heading pass of `convert_md_to_html`: for each level 1 to 6 in turn, every
 * `h<level>` element gets `atx` appended to its class list, and while no title is
 * known, the first `h1` supplies one (its `.string`, stripped).
 */
module Headings {
  import opened Wrappers
  import opened Strings
  import opened Tree
  import opened Edits
  import opened Rewrites
  import opened Soups

  /** `f'h{level}'`. */
  function HeadingTag(level: nat): (t: string)
    requires 1 <= level <= 6
    ensures |t| == 2 && t[0] == 'h' && t[1] as int == '0' as int + level
  {
    "h" + [('0' as int + level) as char]
  }

  /** The tags of the levels the loop has finished before `level`. */
  function Below(level: nat): set<string>
    requires 1 <= level <= 7
  {
    set l: nat | 1 <= l < level :: HeadingTag(l)
  }

  /** `h1` … `h6`. */
  function Headings(): set<string> {
    Below(7)
  }

  /** `existing + ['atx']`, with `existing` defaulting to `[]`. */
  function AddAtx(c: Option<seq<string>>): Option<seq<string>> {
    Some(c.GetOr([]) + ["atx"])
  }

  /** The tree after the heading pass. */
  function Classified(ns: seq<Node>): seq<Node> {
    Reclass(ns, Named(Headings()), AddAtx)
  }

  /**
   * The title after the heading pass: an explicit title stays; otherwise the first
   * `h1`'s `.string`, stripped; `.string` being None raises AttributeError.
   */
  function CapturedTitle(ns: seq<Node>, title: Option<string>): Result<Option<string>, Failure> {
    if title.Some? then Ok(title)
    else match Find(ns, Named({"h1"}))
      case None => Ok(None)
      case Some(h) =>
        match StringOf(h)
        case None => Err(StringIsNone)
        case Some(s) => Ok(Some(Strip(s)))
  }

  /**
   * Every `h1`–`h6` element ends up with `atx` as the last class token, after its
   * previous tokens in their order; every other element keeps its classes; tag,
   * attributes and identity are untouched.
   */
  lemma {:induction false} ClassifiedElement(ns: seq<Node>, x: nat)
    requires Lookup(ns, x).Some?
    ensures Lookup(Classified(ns), x).Some?
    ensures var n, n' := Lookup(ns, x).value, Lookup(Classified(ns), x).value;
      n'.Element? && n'.id == n.id && n'.tag == n.tag && n'.attrs == n.attrs &&
      n'.classes == if n.tag in Headings() then Some(n.classes.GetOr([]) + ["atx"]) else n.classes
  {
    ReclassFind(ns, Named(Headings()), AddAtx, WithId(x));
  }

  /** The heading pass changes class attributes and nothing else; every element stays. */
  lemma ClassifiedKeepsRest(ns: seq<Node>)
    ensures Unclassed(Classified(ns)) == Unclassed(ns)
    ensures Ids(Classified(ns)) == Ids(ns)
  {
    ReclassOnlyClasses(ns, Named(Headings()), AddAtx);
    ReclassFindAll(ns, Named(Headings()), AddAtx, AnyElement);
  }

  /** No de-duplication: a second run gives a heading a second `atx`. */
  lemma ClassifiedTwice(ns: seq<Node>, x: nat)
    requires Lookup(ns, x).Some? && Lookup(ns, x).value.tag in Headings()
    ensures Lookup(Classified(Classified(ns)), x).Some?
    ensures Lookup(Classified(Classified(ns)), x).value.classes ==
      Some(Lookup(ns, x).value.classes.GetOr([]) + ["atx", "atx"])
  {
    ClassifiedElement(ns, x);
    ClassifiedElement(Classified(ns), x);
    var c := Lookup(ns, x).value.classes.GetOr([]);
    assert c + ["atx"] + ["atx"] == c + ["atx", "atx"];
  }

  /**
   * With no title given, the title is the first `h1`'s `.string` stripped (possibly
   * empty), whatever later `h1`s hold; none when there is no `h1`; and an error when
   * the first `h1` has no `.string`.
   */
  lemma {:induction false} CapturedTitleFirstHeading(ns: seq<Node>)
    requires Unique(ns)
    ensures var hs := FindAll(ns, Named({"h1"}));
      if hs == [] then CapturedTitle(ns, None) == Ok(None)
      else
        Lookup(ns, hs[0]).Some? && Lookup(ns, hs[0]).value.tag == "h1" &&
        match StringOf(Lookup(ns, hs[0]).value)
        case None => CapturedTitle(ns, None) == Err(StringIsNone)
        case Some(s) => CapturedTitle(ns, None) == Ok(Some(Strip(s)))
  {
    FindIsFirst(ns, Named({"h1"}));
    var hs := FindAll(ns, Named({"h1"}));
    if hs != [] {
      LookupOfFound(ns, Named({"h1"}));
    }
  }

  /** The elements the heading loop has rewritten when it is at `hs[k]` on `level`. */
  function Visited(level: nat, hs: seq<nat>, k: nat): Query
    requires 1 <= level <= 6 && k <= |hs|
  {
    Either(Named(Below(level)), IdIn(SetOf(hs[..k])))
  }

  /** With no title given, the first `h1` the loop meets decides the title, whatever its classes. */
  lemma FirstHeading(ns: seq<Node>, hs: seq<nat>, q: Query)
    requires Unique(ns) && hs == FindAll(ns, Named({HeadingTag(1)})) && hs != []
    ensures Lookup(ns, hs[0]).Some?
    ensures CapturedTitle(ns, None) ==
      match StringOf(ReclassIn(Lookup(ns, hs[0]).value, q, AddAtx))
      case None => Err(StringIsNone)
      case Some(s) => Ok(Some(Strip(s)))
  {
    assert HeadingTag(1) == "h1";
    FindIsFirst(ns, Named({"h1"}));
    LookupOfFound(ns, Named({"h1"}));
    StringOfReclass(Lookup(ns, hs[0]).value, q, AddAtx);
  }

  /**
   * One step of the inner heading loop: the element `hs[k]` has not been rewritten
   * yet, and giving it `existing + ['atx']` extends the rewrite to it.
   */
  lemma {:induction false} HeadingStep(ns: seq<Node>, level: nat, hs: seq<nat>, k: nat)
    requires Unique(ns) && 1 <= level <= 6 && k < |hs|
    requires hs == FindAll(ns, Named({HeadingTag(level)}))
    ensures Lookup(ns, hs[k]).Some?
    ensures !Matches(Visited(level, hs, k), Lookup(ns, hs[k]).value)
    ensures Lookup(Reclass(ns, Visited(level, hs, k), AddAtx), hs[k]) ==
      Some(ReclassIn(Lookup(ns, hs[k]).value, Visited(level, hs, k), AddAtx))
    ensures EditAt(Reclass(ns, Visited(level, hs, k), AddAtx), hs[k], SetClasses(AddAtx(Lookup(ns, hs[k]).value.classes)))
      == Reclass(ns, Visited(level, hs, k + 1), AddAtx)
  {
    var x := hs[k];
    var tag := HeadingTag(level);
    var q := Visited(level, hs, k);
    var done := SetOf(hs[..k]);
    FindAllDistinct(ns, Named({tag}));
    LookupFindAll(ns, Named({tag}), x);
    var h0 := Lookup(ns, x).value;
    ReclassFind(ns, q, AddAtx, WithId(x));
    forall i | 0 <= i < k ensures hs[..k][i] != x {
    }
    forall l: nat | 1 <= l < level ensures HeadingTag(l) != h0.tag {
      assert HeadingTag(l)[1] != tag[1];
    }
    assert !Matches(q, h0);
    SetClassesExtends(ns, q, AddAtx, x, AddAtx(h0.classes));
    assert hs[..k + 1] == hs[..k] + [x];
    assert SetOf(hs[..k + 1]) == done + {x};
    forall n: Node ensures Matches(Either(q, WithId(x)), n) == Matches(Visited(level, hs, k + 1), n) {
      assert Matches(q, n) == (n.Element? && (n.tag in Below(level) || n.id in done));
      assert Matches(Either(q, WithId(x)), n) == (Matches(q, n) || Matches(WithId(x), n));
    }
    AgreeEverywhere(ns, Either(q, WithId(x)), Visited(level, hs, k + 1));
    ReclassAgree(ns, Either(q, WithId(x)), Visited(level, hs, k + 1), AddAtx);
  }

  /** Once every `h<level>` has been visited, the rewrite covers the next level too. */
  lemma LevelDone(ns: seq<Node>, level: nat, hs: seq<nat>)
    requires Unique(ns) && 1 <= level <= 6
    requires hs == FindAll(ns, Named({HeadingTag(level)}))
    ensures Reclass(ns, Visited(level, hs, |hs|), AddAtx) == Reclass(ns, Named(Below(level + 1)), AddAtx)
  {
    var tag := HeadingTag(level);
    assert hs[..|hs|] == hs;
    AgreeOnFound(ns, Named({tag}), SetOf(hs));
    AgreeEither(ns, Named(Below(level)), IdIn(SetOf(hs)), Named({tag}));
    ReclassAgree(ns, Visited(level, hs, |hs|), Either(Named(Below(level)), Named({tag})), AddAtx);
    assert Below(level + 1) == Below(level) + {tag};
    AgreeEverywhere(ns, Either(Named(Below(level)), Named({tag})), Named(Below(level + 1)));
    ReclassAgree(ns, Either(Named(Below(level)), Named({tag})), Named(Below(level + 1)), AddAtx);
  }

  /** Before any level, nothing has been rewritten. */
  lemma LevelStart(ns: seq<Node>, level: nat, hs: seq<nat>)
    requires 1 <= level <= 6
    ensures Reclass(ns, Visited(level, hs, 0), AddAtx) == Reclass(ns, Named(Below(level)), AddAtx)
    ensures Reclass(ns, Named(Below(1)), AddAtx) == ns
  {
    AgreeEverywhere(ns, Named(Below(level)), Visited(level, hs, 0));
    ReclassAgree(ns, Named(Below(level)), Visited(level, hs, 0), AddAtx);
    AgreeEverywhere(ns, Named(Below(1)), IdIn({}));
    ReclassAgree(ns, Named(Below(1)), IdIn({}), AddAtx);
    ReclassNothing(ns, AddAtx);
  }

  /** The heading loop of `convert_md_to_html`, on the shared soup. */
  method ClassifyHeadings(soup: Soup, title: Option<string>) returns (r: Result<Option<string>, Failure>)
    requires soup.Valid()
    modifies soup
    ensures soup.Valid() && soup.nextId == old(soup.nextId)
    ensures r == CapturedTitle(old(soup.roots), title)
    ensures soup.roots == if r.Ok? then Classified(old(soup.roots)) else old(soup.roots)
  {
    ghost var orig := soup.roots;
    LevelStart(orig, 1, []);
    var t := title;
    var level := 1;
    while level < 7
      invariant 1 <= level <= 7
      invariant soup.Valid() && soup.nextId == old(soup.nextId)
      invariant soup.roots == Reclass(orig, Named(Below(level)), AddAtx)
      invariant level == 1 ==> t == title
      invariant level > 1 ==> CapturedTitle(orig, title) == Ok(t)
    {
      var failed;
      t, failed := ClassifyLevel(soup, orig, level, title, t);
      if failed {
        return Err(StringIsNone);
      }
      level := level + 1;
    }
    return Ok(t);
  }

  /** One level of the heading loop: every `h<level>`, in document order. */
  method ClassifyLevel(soup: Soup, ghost orig: seq<Node>, level: nat, title: Option<string>, t0: Option<string>)
    returns (t: Option<string>, failed: bool)
    requires 1 <= level <= 6 && soup.Valid() && Unique(orig)
    requires soup.roots == Reclass(orig, Named(Below(level)), AddAtx)
    requires level == 1 ==> t0 == title
    requires level > 1 ==> CapturedTitle(orig, title) == Ok(t0)
    modifies soup
    ensures soup.Valid() && soup.nextId == old(soup.nextId)
    ensures failed ==> CapturedTitle(orig, title) == Err(StringIsNone) && soup.roots == old(soup.roots) == orig
    ensures !failed ==> CapturedTitle(orig, title) == Ok(t) && soup.roots == Reclass(orig, Named(Below(level + 1)), AddAtx)
  {
    t := t0;
    var hs := FindAll(soup.roots, Named({HeadingTag(level)}));
    ReclassFindAll(orig, Named(Below(level)), AddAtx, Named({HeadingTag(level)}));
    LevelStart(orig, level, hs);
    var k := 0;
    while k < |hs|
      invariant 0 <= k <= |hs|
      invariant soup.Valid() && soup.nextId == old(soup.nextId)
      invariant soup.roots == Reclass(orig, Visited(level, hs, k), AddAtx)
      invariant level == 1 && k == 0 ==> t == title
      invariant level == 1 && k > 0 ==> t.Some?
      invariant level > 1 || k > 0 ==> CapturedTitle(orig, title) == Ok(t)
    {
      var x := hs[k];
      HeadingStep(orig, level, hs, k);
      var h := Lookup(soup.roots, x).value;
      if level == 1 && t.None? {
        FirstHeading(orig, hs, Visited(level, hs, k));
        match StringOf(h) {
          case None =>
            return t, true;
          case Some(s) =>
            t := Some(Strip(s));
        }
      }
      soup.SetClass(x, AddAtx(h.classes));
      k := k + 1;
    }
    if level == 1 && hs == [] {
      assert HeadingTag(1) == "h1";
      FindIsFirst(orig, Named({"h1"}));
    }
    LevelDone(orig, level, hs);
    failed := false;
  }
}
