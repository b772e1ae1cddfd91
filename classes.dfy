/**
 * The class pass of `convert_md_to_html`: every element that has a `class`
 * attribute (as found before the loop) gets its tokens rewritten through the
 * fixed `class_map` table; a mapped value holds several space-separated words,
 * each of which becomes a token, and unmapped tokens are kept as they are.
 */
module Classes {
  import opened Wrappers
  import opened Strings
  import opened Tree
  import opened Edits
  import opened Rewrites
  import opened Soups

  /** `class_map`: Pygments short class names to Prism-style tokens. */
  function ClassMap(): map<string, string> {
    map[
      "c1" := "token comment",
      "o" := "token operator",
      "mf" := "token number",
      "mi" := "token number",
      "p" := "token punctuation",
      "kc" := "token boolean",
      "kn" := "token keyword"
    ]
  }

  /** `class_map.get(cls, cls)` */
  function Replacement(cls: string): string {
    if cls in ClassMap() then ClassMap()[cls] else cls
  }

  /** The new class list: each token's replacement, split into words, in order. */
  function Remap(classes: seq<string>): seq<string> {
    if classes == [] then [] else SplitWords(Replacement(classes[0])) + Remap(classes[1..])
  }

  /** `tag.get("class", [])` remapped and stored back. */
  function RemapClasses(c: Option<seq<string>>): Option<seq<string>> {
    Some(Remap(c.GetOr([])))
  }

  /** The tree after the class pass. */
  function Remapped(ns: seq<Node>): seq<Node> {
    Reclass(ns, HasClass, RemapClasses)
  }

  /** The remap of a list is the remaps of its parts, in order: nothing is merged or dropped. */
  lemma {:induction false} RemapConcat(a: seq<string>, b: seq<string>)
    ensures Remap(a + b) == Remap(a) + Remap(b)
  {
    if a == [] {
      assert a + b == b;
    } else {
      var w := SplitWords(Replacement(a[0]));
      calc {
        Remap(a + b);
        { assert (a + b)[0] == a[0] && (a + b)[1..] == a[1..] + b; }
        w + Remap(a[1..] + b);
        { RemapConcat(a[1..], b); }
        w + (Remap(a[1..]) + Remap(b));
        (w + Remap(a[1..])) + Remap(b);
        Remap(a) + Remap(b);
      }
    }
  }

  /** One more token remaps to the previous result followed by that token's words. */
  lemma RemapStep(classes: seq<string>, k: nat)
    requires k < |classes|
    ensures Remap(classes[..k + 1]) == Remap(classes[..k]) + SplitWords(Replacement(classes[k]))
  {
    var cls := classes[k];
    calc {
      Remap(classes[..k + 1]);
      { assert classes[..k + 1] == classes[..k] + [cls]; }
      Remap(classes[..k] + [cls]);
      { RemapConcat(classes[..k], [cls]); }
      Remap(classes[..k]) + Remap([cls]);
      { assert [cls][1..] == []; }
      Remap(classes[..k]) + (SplitWords(Replacement(cls)) + Remap([]));
    }
  }

  /** The inner loop: `new_classes.extend(replacement.split())` for each token. */
  method RemapTokens(classes: seq<string>) returns (r: seq<string>)
    ensures r == Remap(classes)
  {
    r := [];
    var k := 0;
    while k < |classes|
      invariant 0 <= k <= |classes|
      invariant r == Remap(classes[..k])
    {
      var cls := classes[k];
      var replacement := if cls in ClassMap() then ClassMap()[cls] else cls;
      RemapStep(classes, k);
      r := r + SplitWords(replacement);
      k := k + 1;
    }
    assert classes[..k] == classes;
  }

  /** The words of the mapped values: `token` and the Prism kind. */
  function Kind(cls: string): string
    requires cls in ClassMap()
  {
    ClassMap()[cls][6..]
  }

  lemma MappedValue(cls: string)
    requires cls in ClassMap()
    ensures ClassMap()[cls] == "token " + Kind(cls) && IsWord("token") && IsWord(Kind(cls))
    ensures Kind(cls) in {"comment", "operator", "number", "punctuation", "boolean", "keyword"}
  {
    LowerWord("token");
    var v := ClassMap()[cls];
    assert v in {"token comment", "token operator", "token number", "token punctuation", "token boolean", "token keyword"};
    assert v[..6] == "token ";
    LowerWord(Kind(cls));
  }

  /** Lower-case letters hold no whitespace. */
  lemma LowerWord(w: string)
    requires w != [] && forall i :: 0 <= i < |w| ==> 'a' <= w[i] <= 'z'
    ensures IsWord(w)
  {
  }

  /** A mapped token becomes the two tokens `token` and its kind. */
  lemma RemapMapped(cls: string)
    requires cls in ClassMap()
    ensures Remap([cls]) == ["token", Kind(cls)]
  {
    MappedValue(cls);
    var kind := Kind(cls);
    calc {
      Remap([cls]);
      { assert [cls][1..] == []; }
      SplitWords(Replacement(cls)) + Remap([]);
      { assert Replacement(cls) == "token" + " " + kind; }
      SplitWords("token" + " " + kind);
      { SplitWordSpace("token", kind); }
      ["token"] + SplitWords(kind);
      { SplitWord(kind); }
      ["token", kind];
    }
  }

  /** An unmapped token (a word, as BeautifulSoup splits them) is kept as it is. */
  lemma RemapUnmapped(cls: string)
    requires IsWord(cls) && cls !in ClassMap()
    ensures Remap([cls]) == [cls]
  {
    SplitWord(cls);
    assert [cls][1..] == [];
  }

  /** A class list is remapped token by token: exactly the mapped tokens expand. */
  lemma {:induction false} RemapTokenwise(classes: seq<string>)
    requires forall k :: 0 <= k < |classes| ==> IsWord(classes[k])
    ensures Remap(classes) == TokenByToken(classes)
  {
    if classes != [] {
      RemapTokenwise(classes[1..]);
      assert classes == [classes[0]] + classes[1..];
      RemapConcat([classes[0]], classes[1..]);
      if classes[0] in ClassMap() {
        RemapMapped(classes[0]);
      } else {
        RemapUnmapped(classes[0]);
      }
    }
  }

  /** The reference reading: one or two tokens per input token, in input order. */
  function TokenByToken(classes: seq<string>): seq<string> {
    if classes == [] then []
    else (if classes[0] in ClassMap() then ["token", Kind(classes[0])] else [classes[0]]) + TokenByToken(classes[1..])
  }

  /** No output token is a key of the table: running the remap again changes nothing. */
  lemma {:induction false} RemapIdempotent(classes: seq<string>)
    requires forall k :: 0 <= k < |classes| ==> IsWord(classes[k])
    ensures Remap(Remap(classes)) == Remap(classes)
  {
    RemapTokenwise(classes);
    var r := Remap(classes);
    FixedTokens(classes);
    RemapFixed(r);
  }

  /** Every token of the remap is a word and not a key of the table. */
  lemma {:induction false} FixedTokens(classes: seq<string>)
    requires forall k :: 0 <= k < |classes| ==> IsWord(classes[k])
    ensures forall k :: 0 <= k < |TokenByToken(classes)| ==> IsWord(TokenByToken(classes)[k]) && TokenByToken(classes)[k] !in ClassMap()
  {
    if classes != [] {
      FixedTokens(classes[1..]);
      var head := if classes[0] in ClassMap() then ["token", Kind(classes[0])] else [classes[0]];
      if classes[0] in ClassMap() {
        MappedValue(classes[0]);
        assert "token" !in ClassMap();
      }
      assert forall k :: 0 <= k < |head| ==> IsWord(head[k]) && head[k] !in ClassMap();
      var rest := TokenByToken(classes[1..]);
      assert TokenByToken(classes) == head + rest;
      forall k | 0 <= k < |head + rest|
        ensures IsWord((head + rest)[k]) && (head + rest)[k] !in ClassMap()
      {
        if k >= |head| {
          assert (head + rest)[k] == rest[k - |head|];
        } else {
          assert (head + rest)[k] == head[k];
        }
      }
    }
  }

  /** A list of words none of which is a key is its own remap. */
  lemma {:induction false} RemapFixed(classes: seq<string>)
    requires forall k :: 0 <= k < |classes| ==> IsWord(classes[k]) && classes[k] !in ClassMap()
    ensures Remap(classes) == classes
  {
    if classes != [] {
      RemapFixed(classes[1..]);
      RemapUnmapped(classes[0]);
      RemapConcat([classes[0]], classes[1..]);
      assert classes == [classes[0]] + classes[1..];
    }
  }

  /**
   * Every element that had a class list gets its remap; an element without a
   * `class` attribute is left alone; identity, tag and attributes stay.
   */
  lemma RemappedElement(ns: seq<Node>, x: nat)
    requires Lookup(ns, x).Some?
    ensures Lookup(Remapped(ns), x).Some?
    ensures var n, n' := Lookup(ns, x).value, Lookup(Remapped(ns), x).value;
      n'.Element? && n'.id == n.id && n'.tag == n.tag && n'.attrs == n.attrs &&
      n'.classes == if n.classes.Some? then Some(Remap(n.classes.value)) else None
  {
    ReclassFind(ns, HasClass, RemapClasses, WithId(x));
  }

  /** The class pass changes class attributes and nothing else. */
  lemma RemappedKeepsRest(ns: seq<Node>)
    ensures Unclassed(Remapped(ns)) == Unclassed(ns)
    ensures Ids(Remapped(ns)) == Ids(ns)
  {
    ReclassOnlyClasses(ns, HasClass, RemapClasses);
    ReclassFindAll(ns, HasClass, RemapClasses, AnyElement);
  }

  /** The class loop of `convert_md_to_html`, on the shared soup. */
  method RemapAllClasses(soup: Soup)
    requires soup.Valid()
    modifies soup
    ensures soup.Valid() && soup.nextId == old(soup.nextId)
    ensures soup.roots == Remapped(old(soup.roots))
  {
    ghost var orig := soup.roots;
    var tags := FindAll(soup.roots, HasClass);
    FindAllDistinct(orig, HasClass);
    ReclassLoopEnds(orig, HasClass, tags, RemapClasses);
    var k := 0;
    while k < |tags|
      invariant 0 <= k <= |tags|
      invariant soup.Valid() && soup.nextId == old(soup.nextId)
      invariant soup.roots == Reclass(orig, IdIn(SetOf(tags[..k])), RemapClasses)
    {
      var x := tags[k];
      LookupFindAll(orig, HasClass, x);
      ReclassStep(orig, tags, k, RemapClasses);
      var tag := Lookup(soup.roots, x).value;
      var newClasses := RemapTokens(tag.classes.GetOr([]));
      soup.SetClass(x, Some(newClasses));
      k := k + 1;
    }
  }
}
