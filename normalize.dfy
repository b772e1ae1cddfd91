/**
 * The per-file body of `update_html_titles`: take the title from the first `h1`
 * (or fall back to "Page"), write the file, then remove every `script`, make sure
 * there is a `head` and append one stylesheet link to it. The write happens in the
 * `h1` branch only, and before the last three steps, so what reaches the file is
 * the tree right after the title step.
 */
module Normalizer {
  import opened Wrappers
  import opened Strings
  import opened Tree
  import opened Edits
  import opened Rewrites
  import opened Soups

  /** A value snapshot of the soup: its top-level nodes and its next identity. */
  datatype Doc = Doc(roots: seq<Node>, nextId: nat)

  /** What one file's run amounts to: the tree written to disk, if any, and the final tree. */
  datatype Outcome = Outcome(written: Option<seq<Node>>, final: Doc)

  /** `h1_tag.string.strip()` when the first `h1` exists and its `.string` is non-empty. */
  function UsableH1(ns: seq<Node>): Option<string> {
    match Find(ns, Named({"h1"}))
    case None => None
    case Some(h) =>
      match StringOf(h)
      case None => None
      case Some(s) => if s != [] then Some(Strip(s)) else None
  }

  /** A `title` element holding `text`, as `new_tag('title')` and `.string = text` make it. */
  function TitleTag(id: nat, text: string): Node {
    Element(id, "title", None, [], [Text(text)])
  }

  function HeadTag(id: nat, children: seq<Node>): Node {
    Element(id, "head", None, [], children)
  }

  /** `new_tag('link', rel='stylesheet', href='../styles.css')` */
  function LinkTag(id: nat): Node {
    Element(id, "link", None, [("rel", "stylesheet"), ("href", "../styles.css")], [])
  }

  /** The identities the new tags bring into the tree. */
  lemma NewTagIds(id: nat, hid: nat, text: string)
    ensures Ids([TitleTag(id, text)]) == [id] && Ids([LinkTag(id)]) == [id]
    ensures Ids([HeadTag(hid, [])]) == [hid]
    ensures Ids([HeadTag(hid, [TitleTag(id, text)])]) == [hid, id]
  {
    var t, h := TitleTag(id, text), HeadTag(hid, [TitleTag(id, text)]);
    FindAllOne(Text(text), AnyElement);
    FindAllOne(t, AnyElement);
    FindAllOne(LinkTag(id), AnyElement);
    FindAllOne(HeadTag(hid, []), AnyElement);
    FindAllOne(h, AnyElement);
  }

  /** `soup.title.string.replace_with(text)`; `.string` being None raises AttributeError. */
  function ReplaceTitle(d: Doc, text: string): Result<Doc, Failure>
    requires Find(d.roots, Named({"title"})).Some?
  {
    var t := Find(d.roots, Named({"title"})).value;
    if StringOf(t).None? then Err(StringIsNone)
    else Ok(Doc(EditAt(d.roots, t.id, ReplaceString(text)), d.nextId))
  }

  /**
   * A new `title` as the first child of the existing `head`, or of a new `head`
   * placed first among the top-level nodes (not inside `html`).
   */
  function CreateTitle(d: Doc, text: string): Doc {
    match Find(d.roots, Named({"head"}))
    case Some(h) => Doc(EditAt(d.roots, h.id, InsertFirst(TitleTag(d.nextId, text))), d.nextId + 1)
    case None => Doc([HeadTag(d.nextId, [TitleTag(d.nextId + 1, text)])] + d.roots, d.nextId + 2)
  }

  /** The tree after the title step, in both branches. */
  function Retitled(d: Doc): Result<Doc, Failure> {
    var hasTitle := Find(d.roots, Named({"title"})).Some?;
    match UsableH1(d.roots)
    case Some(t) => if hasTitle then ReplaceTitle(d, t) else Ok(CreateTitle(d, t))
    case None => if hasTitle then ReplaceTitle(d, "Page") else Ok(d)
  }

  /** Every `script` removed together with its contents. */
  function Unscripted(d: Doc): Doc {
    Doc(Prune(d.roots, Named({"script"})), d.nextId)
  }

  /**
   * `soup.head`, or a new `head` inserted first under `html` if there is one, else
   * first among the top-level nodes; with the identity of the head used afterwards.
   */
  function HeadEnsured(d: Doc): (Doc, nat) {
    match Find(d.roots, Named({"head"}))
    case Some(h) => (d, h.id)
    case None =>
      match Find(d.roots, Named({"html"}))
      case Some(html) => (Doc(EditAt(d.roots, html.id, InsertFirst(HeadTag(d.nextId, []))), d.nextId + 1), d.nextId)
      case None => (Doc([HeadTag(d.nextId, [])] + d.roots, d.nextId + 1), d.nextId)
  }

  /** `head.append(link_tag)` */
  function Linked(d: Doc, headId: nat): Doc {
    Doc(EditAt(d.roots, headId, Append(LinkTag(d.nextId))), d.nextId + 1)
  }

  /** One file: a failure ends it (the `except`); otherwise what was written and the final tree. */
  function Normalized(d: Doc): Result<Outcome, Failure> {
    match Retitled(d)
    case Err(e) => Err(e)
    case Ok(titled) =>
      var written := if UsableH1(d.roots).Some? then Some(titled.roots) else None;
      var (withHead, headId) := HeadEnsured(Unscripted(titled));
      Ok(Outcome(written, Linked(withHead, headId)))
  }

  // ---------------------------------------------------------------------------
  // The steps on the shared soup

  /** Lines 13-34: the title step, with the write in the `h1` branch. */
  method Retitle(soup: Soup) returns (written: Option<seq<Node>>, failure: Option<Failure>)
    requires soup.Valid()
    modifies soup
    ensures soup.Valid()
    ensures match Retitled(Doc(old(soup.roots), old(soup.nextId)))
      case Err(e) => failure == Some(e) && written == None
      case Ok(d) =>
        failure == None && Doc(soup.roots, soup.nextId) == d &&
        written == if UsableH1(old(soup.roots)).Some? then Some(d.roots) else None
  {
    written := None;
    var h1 := Find(soup.roots, Named({"h1"}));
    var titleTag := Find(soup.roots, Named({"title"}));
    if h1.Some? && StringOf(h1.value).Some? && StringOf(h1.value).value != [] {
      var newTitle := Strip(StringOf(h1.value).value);
      if titleTag.Some? {
        if StringOf(titleTag.value).None? {
          return None, Some(StringIsNone);
        }
        soup.ReplaceString(titleTag.value.id, newTitle);
      } else {
        CreateTitleTag(soup, newTitle);
      }
      written := Some(soup.roots);
    } else if titleTag.Some? {
      if StringOf(titleTag.value).None? {
        return None, Some(StringIsNone);
      }
      soup.ReplaceString(titleTag.value.id, "Page");
    }
    failure := None;
  }

  /** Lines 21-26: `head = soup.head or new_tag('head')`, a new `title` first in it. */
  method CreateTitleTag(soup: Soup, text: string)
    requires soup.Valid()
    modifies soup
    ensures soup.Valid()
    ensures Doc(soup.roots, soup.nextId) == CreateTitle(Doc(old(soup.roots), old(soup.nextId)), text)
  {
    var existing := Find(soup.roots, Named({"head"}));
    var head: Node;
    if existing.Some? {
      head := existing.value;
    } else {
      head := soup.NewTag("head", []);
    }
    var title := soup.NewTag("title", []);
    title := title.(children := [Text(text)]);
    NewTagIds(title.id, head.id, text);
    if existing.Some? {
      soup.InsertFirst(head.id, title);
    } else {
      assert [title] + head.children == [title];
      head := head.(children := [title] + head.children);
      assert head == HeadTag(head.id, [TitleTag(title.id, text)]);
      soup.InsertAtTop(head);
    }
  }

  /** Lines 37-38: `decompose()` of every `script` found before the loop. */
  method RemoveScripts(soup: Soup)
    requires soup.Valid()
    modifies soup
    ensures soup.Valid() && soup.nextId == old(soup.nextId)
    ensures soup.roots == Prune(old(soup.roots), Named({"script"}))
  {
    ghost var orig := soup.roots;
    var scripts := FindAll(soup.roots, Named({"script"}));
    PruneLoopEnds(orig, Named({"script"}), scripts);
    var k := 0;
    while k < |scripts|
      invariant 0 <= k <= |scripts|
      invariant soup.Valid() && soup.nextId == old(soup.nextId)
      invariant soup.roots == Prune(orig, IdIn(SetOf(scripts[..k])))
    {
      PruneStep(orig, scripts, k);
      soup.Remove(scripts[k]);
      k := k + 1;
    }
  }

  /** Lines 41-48: the head the link goes into, created if missing. */
  method EnsureHead(soup: Soup) returns (headId: nat)
    requires soup.Valid()
    modifies soup
    ensures soup.Valid()
    ensures (Doc(soup.roots, soup.nextId), headId) == HeadEnsured(Doc(old(soup.roots), old(soup.nextId)))
  {
    var head := Find(soup.roots, Named({"head"}));
    if head.Some? {
      return head.value.id;
    }
    var newHead := soup.NewTag("head", []);
    NewTagIds(0, newHead.id, "");
    var html := Find(soup.roots, Named({"html"}));
    if html.Some? {
      soup.InsertFirst(html.value.id, newHead);
    } else {
      soup.InsertAtTop(newHead);
    }
    headId := newHead.id;
  }

  /** Lines 51-56: one stylesheet link appended to the head. */
  method AppendLink(soup: Soup, headId: nat)
    requires soup.Valid()
    modifies soup
    ensures soup.Valid()
    ensures Doc(soup.roots, soup.nextId) == Linked(Doc(old(soup.roots), old(soup.nextId)), headId)
  {
    var link := soup.NewTag("link", [("rel", "stylesheet"), ("href", "../styles.css")]);
    NewTagIds(link.id, 0, "");
    soup.Append(headId, link);
  }

  /** Lines 13-56 for one parsed file. */
  method NormalizeFile(soup: Soup) returns (written: Option<seq<Node>>, failure: Option<Failure>)
    requires soup.Valid()
    modifies soup
    ensures soup.Valid()
    ensures match Normalized(Doc(old(soup.roots), old(soup.nextId)))
      case Err(e) => failure == Some(e) && written == None
      case Ok(o) => failure == None && written == o.written && Doc(soup.roots, soup.nextId) == o.final
  {
    written, failure := Retitle(soup);
    if failure.Some? {
      return;
    }
    RemoveScripts(soup);
    var headId := EnsureHead(soup);
    AppendLink(soup, headId);
  }

  // ---------------------------------------------------------------------------
  // Properties

  /** A list of distinct ids holding the one id `x` is `[x]`. */
  lemma SingleId(s: seq<nat>, x: nat)
    requires multiset(s) == multiset{x}
    ensures s == [x]
  {
    assert |s| == |multiset(s)| == 1;
    assert s[0] in multiset(s);
  }

  /** Inserting fresh nodes under an element keeps identities distinct and issued. */
  lemma IssuedAfterInsert(ns: seq<Node>, x: nat, e: Edit, next: nat, next': nat)
    requires Issued(ns, next) && (e.InsertFirst? || e.Append?) && Unique(Added(e))
    requires next <= next' && forall y :: y in Ids(Added(e)) ==> next <= y < next'
    ensures Issued(EditAt(ns, x, e), next')
  {
    EditKeepsUnique(ns, x, e);
    if x !in Ids(ns) {
      assert multiset(Ids(EditAt(ns, x, e))) <= multiset(Ids(ns)) + multiset(Ids(Added(e)));
    }
    BoundedWithin(Ids(EditAt(ns, x, e)), Ids(ns), Ids(Added(e)), next');
  }

  /**
   * Title source: only the first `h1` in document order counts, and only when its
   * `.string` is a non-empty string; the new title is that string, stripped.
   */
  lemma {:induction false} UsableH1FirstOnly(ns: seq<Node>)
    requires Unique(ns)
    ensures var hs := FindAll(ns, Named({"h1"}));
      if hs == [] then UsableH1(ns) == None
      else
        Lookup(ns, hs[0]).Some? && Lookup(ns, hs[0]).value.tag == "h1" &&
        match StringOf(Lookup(ns, hs[0]).value)
        case Some(s) => UsableH1(ns) == if s != [] then Some(Strip(s)) else None
        case None => UsableH1(ns) == None
  {
    FindIsFirst(ns, Named({"h1"}));
    if FindAll(ns, Named({"h1"})) != [] {
      LookupOfFound(ns, Named({"h1"}));
    }
  }

  /**
   * `replace_with` on the title: the title element then reads back the new text;
   * it keeps its place, and no element comes or goes.
   */
  lemma TitleReplaced(d: Doc, text: string)
    requires Issued(d.roots, d.nextId)
    requires Find(d.roots, Named({"title"})).Some?
    requires StringOf(Find(d.roots, Named({"title"})).value).Some?
    ensures ReplaceTitle(d, text).Ok?
    ensures var t, r := Find(d.roots, Named({"title"})).value, ReplaceTitle(d, text).value;
      Issued(r.roots, r.nextId) && r.nextId == d.nextId &&
      Lookup(r.roots, t.id).Some? && Lookup(r.roots, t.id).value.tag == "title" &&
      StringOf(Lookup(r.roots, t.id).value) == Some(text) &&
      multiset(Ids(r.roots)) == multiset(Ids(d.roots))
  {
    var t := Find(d.roots, Named({"title"})).value;
    LookupOfFound(d.roots, Named({"title"}));
    FindIsFirst(d.roots, Named({"title"}));
    LookupEdited(d.roots, t.id, ReplaceString(text));
    ReplaceStringRoundTrip(t, text);
    EditKeepsUnique(d.roots, t.id, ReplaceString(text));
    LookupFound(d.roots, t.id);
    var r := EditAt(d.roots, t.id, ReplaceString(text));
    BoundedWithin(Ids(r), Ids(d.roots), [], d.nextId);
  }

  /**
   * A missing title is created with the text: afterwards there is exactly one
   * `title`, and it is the first child of the head (the existing one, or a new one
   * placed first among the top-level nodes).
   */
  lemma TitleCreated(d: Doc, text: string)
    requires Issued(d.roots, d.nextId) && Find(d.roots, Named({"title"})).None?
    ensures var r := CreateTitle(d, text);
      Issued(r.roots, r.nextId) &&
      match Find(d.roots, Named({"head"}))
      case Some(h) =>
        FindAll(r.roots, Named({"title"})) == [d.nextId] &&
        Lookup(r.roots, h.id) == Some(h.(children := [TitleTag(d.nextId, text)] + h.children))
      case None =>
        FindAll(r.roots, Named({"title"})) == [d.nextId + 1] &&
        r.roots == [HeadTag(d.nextId, [TitleTag(d.nextId + 1, text)])] + d.roots
  {
    FindIsFirst(d.roots, Named({"title"}));
    if Find(d.roots, Named({"head"})).Some? {
      TitleUnderHead(d, text);
    } else {
      TitleInNewHead(d, text);
    }
  }

  lemma TitleUnderHead(d: Doc, text: string)
    requires Issued(d.roots, d.nextId) && FindAll(d.roots, Named({"title"})) == []
    requires Find(d.roots, Named({"head"})).Some?
    ensures var r, h := CreateTitle(d, text), Find(d.roots, Named({"head"})).value;
      Issued(r.roots, r.nextId) &&
      FindAll(r.roots, Named({"title"})) == [d.nextId] &&
      Lookup(r.roots, h.id) == Some(h.(children := [TitleTag(d.nextId, text)] + h.children))
  {
    var h := Find(d.roots, Named({"head"})).value;
    var e := InsertFirst(TitleTag(d.nextId, text));
    var r := EditAt(d.roots, h.id, e);
    NewTagIds(d.nextId, 0, text);
    FindAllOne(TitleTag(d.nextId, text), Named({"title"}));
    LookupOfFound(d.roots, Named({"head"}));
    LookupFound(d.roots, h.id);
    IssuedAfterInsert(d.roots, h.id, e, d.nextId, d.nextId + 1);
    EditFindAll(d.roots, h.id, e, Named({"title"}));
    FindAllOne(Text(text), Named({"title"}));
    assert FindAll(Added(e), Named({"title"})) == [d.nextId];
    SingleId(FindAll(r, Named({"title"})), d.nextId);
    LookupEdited(d.roots, h.id, e);
  }

  lemma TitleInNewHead(d: Doc, text: string)
    requires Issued(d.roots, d.nextId) && FindAll(d.roots, Named({"title"})) == []
    requires Find(d.roots, Named({"head"})).None?
    ensures var r := CreateTitle(d, text);
      Issued(r.roots, r.nextId) &&
      FindAll(r.roots, Named({"title"})) == [d.nextId + 1] &&
      r.roots == [HeadTag(d.nextId, [TitleTag(d.nextId + 1, text)])] + d.roots
  {
    var head := HeadTag(d.nextId, [TitleTag(d.nextId + 1, text)]);
    NewTagIds(d.nextId + 1, d.nextId, text);
    NewHeadTitle(d.nextId, d.nextId + 1, text);
    FindAllConcat([head], d.roots, Named({"title"}));
    IssuedAtTop(d.roots, head, d.nextId, d.nextId + 2);
  }

  /** A new head holding a new title: the only `title` in it is that title. */
  lemma NewHeadTitle(hid: nat, id: nat, text: string)
    ensures FindAll([HeadTag(hid, [TitleTag(id, text)])], Named({"title"})) == [id]
  {
    FindAllOne(HeadTag(hid, [TitleTag(id, text)]), Named({"title"}));
    FindAllOne(TitleTag(id, text), Named({"title"}));
    FindAllOne(Text(text), Named({"title"}));
    assert FindAll([TitleTag(id, text)], Named({"title"})) == [id] + FindAll([Text(text)], Named({"title"}));
  }

  /** Inserting a node with fresh identities in front of the top-level nodes. */
  lemma IssuedAtTop(ns: seq<Node>, n: Node, next: nat, next': nat)
    requires Issued(ns, next) && Unique([n]) && next <= next'
    requires forall y :: y in Ids([n]) ==> next <= y < next'
    ensures Issued([n] + ns, next')
  {
    FindAllConcat([n], ns, AnyElement);
    DistinctConcat(Ids([n]), Ids(ns));
  }

  /** Without a usable `h1`, an existing title reads "Page" afterwards, and no title is created. */
  lemma PlaceholderTitle(d: Doc)
    requires Issued(d.roots, d.nextId) && UsableH1(d.roots).None?
    ensures Find(d.roots, Named({"title"})).None? ==> Retitled(d) == Ok(d)
    ensures match Find(d.roots, Named({"title"}))
      case None => true
      case Some(t) =>
        if StringOf(t).None? then Retitled(d) == Err(StringIsNone)
        else
          Retitled(d).Ok? && Lookup(Retitled(d).value.roots, t.id).Some? &&
          StringOf(Lookup(Retitled(d).value.roots, t.id).value) == Some("Page")
  {
    if Find(d.roots, Named({"title"})).Some? && StringOf(Find(d.roots, Named({"title"})).value).Some? {
      TitleReplaced(d, "Page");
    }
  }

  /** Afterwards no `script` is left anywhere; a tree without one is left as it is. */
  lemma ScriptsRemoved(d: Doc)
    ensures FindAll(Unscripted(d).roots, Named({"script"})) == []
    ensures FindAll(d.roots, Named({"script"})) == [] ==> Unscripted(d) == d
    ensures multiset(Ids(Unscripted(d).roots)) <= multiset(Ids(d.roots))
  {
    PruneRemovesAll(d.roots, Named({"script"}));
    if FindAll(d.roots, Named({"script"})) == [] {
      PruneNothing(d.roots, Named({"script"}));
    }
    PruneIds(d.roots, Named({"script"}));
  }

  /**
   * Every element whose tag is not `script` is kept, in document order, provided no
   * `script` holds elements (`html.parser` reads a script's content as raw text).
   */
  lemma OthersKept(d: Doc, names: set<string>)
    requires "script" !in names && Sealed(d.roots, Named({"script"}), Named(names))
    ensures FindAll(Unscripted(d).roots, Named(names)) == FindAll(d.roots, Named(names))
  {
    PruneKeepsOthers(d.roots, Named({"script"}), Named(names));
  }

  /** Removing elements keeps identities distinct and issued. */
  lemma UnscriptedIssued(d: Doc)
    requires Issued(d.roots, d.nextId)
    ensures Issued(Unscripted(d).roots, d.nextId)
  {
    var r := Unscripted(d).roots;
    PruneIds(d.roots, Named({"script"}));
    DistinctMultiset(Ids(d.roots));
    DistinctMultiset(Ids(r));
    BoundedWithin(Ids(r), Ids(d.roots), [], d.nextId);
  }

  /**
   * Head guarantee: the head used afterwards exists in the tree; when there was
   * none, the new one is the only head, first under `html` or first at the top;
   * no `script` or `link` comes or goes.
   */
  lemma HeadGuaranteed(d: Doc, q: Query)
    requires Issued(d.roots, d.nextId) && q.Named? && "head" !in q.names
    ensures var (r, h) := HeadEnsured(d);
      Issued(r.roots, r.nextId) &&
      Lookup(r.roots, h).Some? && Lookup(r.roots, h).value.tag == "head" &&
      multiset(FindAll(r.roots, q)) == multiset(FindAll(d.roots, q)) &&
      (FindAll(d.roots, Named({"head"})) != [] ==> r == d) &&
      (FindAll(d.roots, Named({"head"})) == [] ==> FindAll(r.roots, Named({"head"})) == [h] && h == d.nextId)
  {
    FindIsFirst(d.roots, Named({"head"}));
    var (r, h) := HeadEnsured(d);
    if Find(d.roots, Named({"head"})).Some? {
      LookupOfFound(d.roots, Named({"head"}));
    } else {
      if Find(d.roots, Named({"html"})).Some? {
        HeadUnderHtml(d, q);
      } else {
        HeadAtTop(d, q);
      }
      SingleId(FindAll(r.roots, Named({"head"})), h);
      LookupFindAll(r.roots, Named({"head"}), h);
    }
  }

  /**
   * Where a new `head` goes when there is none: first among the children of the
   * first `html`, or first among the top-level nodes when there is no `html`.
   */
  lemma HeadPlaced(d: Doc)
    requires Issued(d.roots, d.nextId) && Find(d.roots, Named({"head"})).None?
    ensures var (r, h) := HeadEnsured(d);
      h == d.nextId &&
      match Find(d.roots, Named({"html"}))
      case Some(html) => Lookup(r.roots, html.id) == Some(html.(children := [HeadTag(h, [])] + html.children))
      case None => r.roots == [HeadTag(h, [])] + d.roots
  {
    if Find(d.roots, Named({"html"})).Some? {
      var html := Find(d.roots, Named({"html"})).value;
      LookupOfFound(d.roots, Named({"html"}));
      NewTagIds(0, d.nextId, "");
      FindIsFirst(d.roots, Named({"html"}));
      LookupFound(d.roots, html.id);
      LookupEdited(d.roots, html.id, InsertFirst(HeadTag(d.nextId, [])));
    }
  }

  lemma HeadUnderHtml(d: Doc, q: Query)
    requires Issued(d.roots, d.nextId) && q.Named? && "head" !in q.names
    requires FindAll(d.roots, Named({"head"})) == [] && Find(d.roots, Named({"head"})).None?
    requires Find(d.roots, Named({"html"})).Some?
    ensures var (r, h) := HeadEnsured(d);
      Issued(r.roots, r.nextId) && h == d.nextId &&
      multiset(FindAll(r.roots, Named({"head"}))) == multiset{h} &&
      multiset(FindAll(r.roots, q)) == multiset(FindAll(d.roots, q))
  {
    var html := Find(d.roots, Named({"html"})).value;
    FindIsFirst(d.roots, Named({"html"}));
    LookupOfFound(d.roots, Named({"html"}));
    LookupFound(d.roots, html.id);
    HeadInserted(d.roots, html.id, d.nextId, q);
  }

  /** A new empty `head` inserted first under an element of the tree. */
  lemma HeadInserted(ns: seq<Node>, x: nat, next: nat, q: Query)
    requires Issued(ns, next) && q.Named? && "head" !in q.names
    requires FindAll(ns, Named({"head"})) == [] && x in Ids(ns)
    ensures var r := EditAt(ns, x, InsertFirst(HeadTag(next, [])));
      Issued(r, next + 1) &&
      multiset(FindAll(r, Named({"head"}))) == multiset{next} &&
      multiset(FindAll(r, q)) == multiset(FindAll(ns, q))
  {
    var n := HeadTag(next, []);
    NewTagIds(0, next, "");
    FindAllOne(n, Named({"head"}));
    FindAllOne(n, q);
    IssuedAfterInsert(ns, x, InsertFirst(n), next, next + 1);
    EditFindAll(ns, x, InsertFirst(n), Named({"head"}));
    EditFindAll(ns, x, InsertFirst(n), q);
  }

  lemma HeadAtTop(d: Doc, q: Query)
    requires Issued(d.roots, d.nextId) && q.Named? && "head" !in q.names
    requires FindAll(d.roots, Named({"head"})) == [] && Find(d.roots, Named({"head"})).None?
    requires Find(d.roots, Named({"html"})).None?
    ensures var (r, h) := HeadEnsured(d);
      Issued(r.roots, r.nextId) && h == d.nextId &&
      multiset(FindAll(r.roots, Named({"head"}))) == multiset{h} &&
      multiset(FindAll(r.roots, q)) == multiset(FindAll(d.roots, q))
  {
    HeadPrepended(d.roots, d.nextId, q);
  }

  /** A new empty `head` put first among the top-level nodes. */
  lemma HeadPrepended(ns: seq<Node>, next: nat, q: Query)
    requires Issued(ns, next) && q.Named? && "head" !in q.names
    requires FindAll(ns, Named({"head"})) == []
    ensures var r := [HeadTag(next, [])] + ns;
      Issued(r, next + 1) &&
      multiset(FindAll(r, Named({"head"}))) == multiset{next} &&
      multiset(FindAll(r, q)) == multiset(FindAll(ns, q))
  {
    var n := HeadTag(next, []);
    NewTagIds(0, next, "");
    assert FindAllIn(n, Named({"head"})) == [next] && FindAllIn(n, q) == [];
    PrependedCounts(n, ns, Named({"head"}));
    PrependedCounts(n, ns, q);
    IssuedAtTop(ns, n, next, next + 1);
  }

  /** What a search finds once a node is put in front of the top-level nodes. */
  lemma PrependedCounts(n: Node, ns: seq<Node>, q: Query)
    ensures multiset(FindAll([n] + ns, q)) == multiset(FindAllIn(n, q)) + multiset(FindAll(ns, q))
  {
    FindAllOne(n, q);
    FindAllConcat([n], ns, q);
  }

  /**
   * Link append: the head gets the new `link` as its last child, one `link` more
   * exists (earlier ones are kept), and no `script` comes or goes.
   */
  lemma LinkAppended(d: Doc, h: nat)
    requires Issued(d.roots, d.nextId) && Lookup(d.roots, h).Some?
    ensures var r, head := Linked(d, h), Lookup(d.roots, h).value;
      Issued(r.roots, r.nextId) &&
      Lookup(r.roots, h) == Some(head.(children := head.children + [LinkTag(d.nextId)])) &&
      multiset(FindAll(r.roots, Named({"link"}))) == multiset(FindAll(d.roots, Named({"link"}))) + multiset{d.nextId} &&
      multiset(FindAll(r.roots, Named({"script"}))) == multiset(FindAll(d.roots, Named({"script"})))
  {
    var e := Append(LinkTag(d.nextId));
    NewTagIds(d.nextId, 0, "");
    LookupFound(d.roots, h);
    IssuedAfterInsert(d.roots, h, e, d.nextId, d.nextId + 1);
    LookupEdited(d.roots, h, e);
    LinkCounted(d, h, Named({"link"}));
    LinkCounted(d, h, Named({"script"}));
  }

  /** What the appended link adds to a search for some tags. */
  lemma LinkCounted(d: Doc, h: nat, q: Query)
    requires Unique(d.roots) && h in Ids(d.roots) && q.Named?
    ensures multiset(FindAll(Linked(d, h).roots, q)) ==
      multiset(FindAll(d.roots, q)) + if "link" in q.names then multiset{d.nextId} else multiset{}
  {
    var e := Append(LinkTag(d.nextId));
    FindAllOne(LinkTag(d.nextId), q);
    EditFindAll(d.roots, h, e, q);
  }

  /** New title and head tags bring no element that a query for other tags selects. */
  lemma NewTagsUnmatched(id: nat, hid: nat, text: string, q: Query)
    requires q.Named? && "title" !in q.names && "head" !in q.names
    ensures FindAll([TitleTag(id, text)], q) == []
    ensures FindAll([HeadTag(hid, [TitleTag(id, text)])], q) == []
  {
    FindAllOne(Text(text), q);
    FindAllOne(TitleTag(id, text), q);
    assert FindAllIn(TitleTag(id, text), q) == FindAll([Text(text)], q);
    FindAllOne(HeadTag(hid, [TitleTag(id, text)]), q);
  }

  /**
   * The title step keeps identities distinct and issued, and changes no element
   * other than a `title` or `head`: in particular what is written keeps every
   * `script` and gains no `link`.
   */
  lemma RetitledKeeps(d: Doc, q: Query)
    requires Issued(d.roots, d.nextId) && q.Named? && "title" !in q.names && "head" !in q.names
    ensures Retitled(d).Ok? ==>
      Issued(Retitled(d).value.roots, Retitled(d).value.nextId) &&
      multiset(FindAll(Retitled(d).value.roots, q)) == multiset(FindAll(d.roots, q))
  {
    var title := Find(d.roots, Named({"title"}));
    if title.Some? {
      var text := if UsableH1(d.roots).Some? then UsableH1(d.roots).value else "Page";
      if StringOf(title.value).Some? {
        ReplacedKeeps(d, text, q);
      }
    } else if UsableH1(d.roots).Some? {
      CreatedKeeps(d, UsableH1(d.roots).value, q);
    }
  }

  lemma ReplacedKeeps(d: Doc, text: string, q: Query)
    requires Issued(d.roots, d.nextId) && q.Named?
    requires Find(d.roots, Named({"title"})).Some?
    requires StringOf(Find(d.roots, Named({"title"})).value).Some?
    ensures ReplaceTitle(d, text).Ok?
    ensures var r := ReplaceTitle(d, text).value;
      Issued(r.roots, r.nextId) && multiset(FindAll(r.roots, q)) == multiset(FindAll(d.roots, q))
  {
    TitleReplaced(d, text);
    EditFindAll(d.roots, Find(d.roots, Named({"title"})).value.id, ReplaceString(text), q);
  }

  lemma CreatedKeeps(d: Doc, text: string, q: Query)
    requires Issued(d.roots, d.nextId) && q.Named? && "title" !in q.names && "head" !in q.names
    requires Find(d.roots, Named({"title"})).None?
    ensures var r := CreateTitle(d, text);
      Issued(r.roots, r.nextId) && multiset(FindAll(r.roots, q)) == multiset(FindAll(d.roots, q))
  {
    TitleCreated(d, text);
    match Find(d.roots, Named({"head"}))
    case Some(h) =>
      NewTagsUnmatched(d.nextId, d.nextId, text, q);
      EditFindAll(d.roots, h.id, InsertFirst(TitleTag(d.nextId, text)), q);
    case None =>
      NewTagsUnmatched(d.nextId + 1, d.nextId, text, q);
      FindAllConcat([HeadTag(d.nextId, [TitleTag(d.nextId + 1, text)])], d.roots, q);
  }

  /**
   * The write quirk: a file is written exactly when a usable `h1` exists, and what
   * is written is the tree before the cleanup, so it still holds every `script` of
   * the input and none of the links added afterwards.
   */
  lemma WrittenBeforeCleanup(d: Doc)
    requires Issued(d.roots, d.nextId)
    ensures Normalized(d).Ok? <==> Retitled(d).Ok?
    ensures Normalized(d).Ok? ==> (Normalized(d).value.written.Some? <==> UsableH1(d.roots).Some?)
    ensures Normalized(d).Ok? && Normalized(d).value.written.Some? ==>
      var w := Normalized(d).value.written.value;
      w == Retitled(d).value.roots &&
      multiset(FindAll(w, Named({"script"}))) == multiset(FindAll(d.roots, Named({"script"}))) &&
      multiset(FindAll(w, Named({"link"}))) == multiset(FindAll(d.roots, Named({"link"})))
  {
    RetitledKeeps(d, Named({"script"}));
    RetitledKeeps(d, Named({"link"}));
  }

  /**
   * After a successful run no `script` is left; the head the link went into is an
   * element of the final tree whose last child is the new stylesheet link; and the
   * final tree has exactly one `link` more than the tree after script removal.
   */
  lemma CleanupFacts(d: Doc)
    requires Issued(d.roots, d.nextId) && Retitled(d).Ok?
    ensures Normalized(d).Ok?
    ensures var t := Unscripted(Retitled(d).value);
      var (w, h) := HeadEnsured(t);
      var f := Normalized(d).value.final;
      Issued(f.roots, f.nextId) &&
      FindAll(f.roots, Named({"script"})) == [] &&
      Lookup(f.roots, h).Some? && Lookup(f.roots, h).value.tag == "head" &&
      Lookup(f.roots, h).value.children != [] &&
      Lookup(f.roots, h).value.children[|Lookup(f.roots, h).value.children| - 1] == LinkTag(w.nextId) &&
      multiset(FindAll(f.roots, Named({"link"}))) == multiset(FindAll(t.roots, Named({"link"}))) + multiset{w.nextId}
  {
    var titled := Retitled(d).value;
    RetitledKeeps(d, Named({"script"}));
    var t := Unscripted(titled);
    UnscriptedIssued(titled);
    ScriptsRemoved(titled);
    var (w, h) := HeadEnsured(t);
    HeadGuaranteed(t, Named({"script"}));
    HeadGuaranteed(t, Named({"link"}));
    LinkAppended(w, h);
    var f := Linked(w, h);
    assert |multiset(FindAll(f.roots, Named({"script"})))| == 0;
  }
}
