/**
 * The last steps of `convert_md_to_html`: the page title (the title found so far
 * if it is non-empty, else the file name of the Markdown path without its
 * extension, with Windows path rules), the optional stylesheet link, and the
 * fixed page skeleton around the processed body.
 */
module Page {
  import opened Wrappers
  import opened Strings

  /** A separator of Windows paths (`ntpath`): both slashes. */
  predicate IsSep(c: char) {
    c == '/' || c == '\\'
  }

  predicate NoSep(s: string) {
    forall i :: 0 <= i < |s| ==> !IsSep(s[i])
  }

  /** The part of `p` after its last separator. */
  function AfterLastSep(p: string): (r: string)
    ensures |r| <= |p| && r == p[|p| - |r|..] && NoSep(r)
    ensures |r| == |p| || IsSep(p[|p| - |r| - 1])
  {
    if p == [] || IsSep(p[|p| - 1]) then []
    else AfterLastSep(p[..|p| - 1]) + [p[|p| - 1]]
  }

  /** `ntpath.basename`: a drive such as `C:` is split off first, then the part after the last separator. */
  function Basename(path: string): string {
    var p := if |path| >= 2 && path[1] == ':' then path[2..] else path;
    AfterLastSep(p)
  }

  /** The index of the last `.` of `name`, if any. */
  function LastDot(name: string): (r: Option<nat>)
    ensures r.Some? ==> (r.value < |name| && name[r.value] == '.' &&
      forall i :: r.value < i < |name| ==> name[i] != '.')
    ensures r.None? ==> forall i :: 0 <= i < |name| ==> name[i] != '.'
  {
    if name == [] then None
    else if name[|name| - 1] == '.' then Some(|name| - 1)
    else LastDot(name[..|name| - 1])
  }

  /**
   * `os.path.splitext(name)[0]` for a name without separators: the text before the
   * last dot, unless every character before that dot is a dot too (`.bashrc`).
   */
  function Stem(name: string): string {
    match LastDot(name)
    case None => name
    case Some(d) => if exists i :: 0 <= i < d && name[i] != '.' then name[..d] else name
  }

  /** `title or os.path.splitext(os.path.basename(md_path))[0]` */
  function PageTitle(title: Option<string>, mdPath: string): string {
    if title.Some? && title.value != [] then title.value else Stem(Basename(mdPath))
  }

  /** `link_tag`: a stylesheet link line when `css_href` is truthy, nothing otherwise. */
  function LinkTag(cssHref: Option<string>): string {
    if cssHref.Some? && cssHref.value != [] then "<link rel=\"stylesheet\" href=\"" + cssHref.value + "\">\n" else ""
  }

  /** The skeleton up to the `<title>` text. */
  const BeforeTitle: string :=
    "<!DOCTYPE html>\n<html lang=\"en\">\n<head>\n  <meta charset=\"utf-8\">\n" +
    "  <meta name=\"viewport\" content=\"width=device-width, initial-scale=1\">\n  <title>"

  /** The skeleton after the body. */
  const AfterBody: string := "\n</article>\n</body>\n</html>\n"

  /** The start of the article the body is placed in. */
  const ArticleOpen: string := "<article class=\"markdown-body\">\n"

  /** Everything between the title and the body: the link line and the MathJax block. */
  function Middle(linkTag: string, mathJax: string): string {
    "</title>\n  " + linkTag + "\n" + mathJax + "</head>\n<body>\n" + ArticleOpen
  }

  /** `full_html`; `mathJax` is the fixed MathJax configuration and script text. */
  function FullHtml(pageTitle: string, linkTag: string, mathJax: string, body: string): string {
    BeforeTitle + pageTitle + Middle(linkTag, mathJax) + body + AfterBody
  }

  // ---------------------------------------------------------------------------
  // Properties

  /**
   * Title precedence for a Markdown file `dir\name.ext`: a non-empty title wins; a
   * missing or empty one gives `name`.
   */
  lemma PageTitleOfPath(title: Option<string>, dir: string, sep: char, name: string, ext: string)
    requires dir != [] && IsSep(sep) && NoSep(name) && NoSep(ext)
    requires exists i :: 0 <= i < |name| && name[i] != '.'
    requires forall i :: 0 <= i < |ext| ==> ext[i] != '.'
    ensures PageTitle(title, dir + [sep] + name + "." + ext) ==
      if title.Some? && title.value != [] then title.value else name
  {
    var file := name + "." + ext;
    assert NoSep(file) by {
      forall i | 0 <= i < |file| ensures !IsSep(file[i]) {
        if i < |name| {
          assert file[i] == name[i];
        } else if i > |name| {
          assert file[i] == ext[i - |name| - 1];
        }
      }
    }
    assert dir + [sep] + name + "." + ext == dir + [sep] + file;
    BasenameOfJoin(dir, sep, file);
    StemOfExtension(name, ext);
  }

  /** The part after the last separator of a joined path is the last component. */
  lemma {:induction false} AfterLastSepOfJoin(q: string, sep: char, name: string)
    requires IsSep(sep) && NoSep(name)
    ensures AfterLastSep(q + [sep] + name) == name
    decreases |name|
  {
    var p := q + [sep] + name;
    if name == [] {
      assert p[|p| - 1] == sep;
    } else {
      var init := name[..|name| - 1];
      assert p[|p| - 1] == name[|name| - 1];
      assert p[..|p| - 1] == q + [sep] + init;
      AfterLastSepOfJoin(q, sep, init);
      assert init + [name[|name| - 1]] == name;
    }
  }

  /** The base name is the last path component, after either kind of slash. */
  lemma BasenameOfJoin(dir: string, sep: char, name: string)
    requires dir != [] && IsSep(sep) && NoSep(name)
    ensures Basename(dir + [sep] + name) == name
  {
    var path := dir + [sep] + name;
    if |dir| >= 2 {
      assert path[2..] == dir[2..] + [sep] + name;
      AfterLastSepOfJoin(dir[2..], sep, name);
    } else {
      assert path[1] == sep;
    }
    AfterLastSepOfJoin(dir, sep, name);
  }

  /** The last dot of `prefix.ext`, when `ext` has none, is the one before `ext`. */
  lemma {:induction false} LastDotOfExtension(prefix: string, ext: string)
    requires forall i :: 0 <= i < |ext| ==> ext[i] != '.'
    ensures LastDot(prefix + "." + ext) == Some(|prefix|)
    decreases |ext|
  {
    var s := prefix + "." + ext;
    if ext == [] {
      assert s[|s| - 1] == '.';
    } else {
      var init := ext[..|ext| - 1];
      assert s[|s| - 1] == ext[|ext| - 1];
      assert s[..|s| - 1] == prefix + "." + init;
      LastDotOfExtension(prefix, init);
    }
  }

  /** A name with an extension loses exactly the extension. */
  lemma StemOfExtension(name: string, ext: string)
    requires exists i :: 0 <= i < |name| && name[i] != '.'
    requires forall i :: 0 <= i < |ext| ==> ext[i] != '.'
    ensures Stem(name + "." + ext) == name
  {
    var s := name + "." + ext;
    LastDotOfExtension(name, ext);
    var i :| 0 <= i < |name| && name[i] != '.';
    assert s[i] == name[i];
    assert s[..|name|] == name;
  }

  /** A dot file such as `.md` keeps its whole name as its stem. */
  lemma StemOfDotFile(ext: string)
    requires forall i :: 0 <= i < |ext| ==> ext[i] != '.'
    ensures Stem("." + ext) == "." + ext
  {
    LastDotOfExtension("", ext);
    assert "" + "." + ext == "." + ext;
  }

  /** The link line is present exactly when the stylesheet address is non-empty, and carries it. */
  lemma LinkTagPresent(cssHref: Option<string>)
    ensures LinkTag(cssHref) != [] <==> cssHref.Some? && cssHref.value != []
    ensures LinkTag(cssHref) != [] ==>
      LinkTag(cssHref)[29..29 + |cssHref.value|] == cssHref.value
  {
    if cssHref.Some? && cssHref.value != [] {
      var l := LinkTag(cssHref);
      assert |"<link rel=\"stylesheet\" href=\""| == 29;
      assert l[29..29 + |cssHref.value|] == cssHref.value;
    }
  }

  /** The link line sits right after `</title>`, the newline and the two-space indent. */
  lemma LinkTagAt(pageTitle: string, linkTag: string, mathJax: string, body: string)
    ensures var page := FullHtml(pageTitle, linkTag, mathJax, body);
      OccursAt(page, linkTag, |BeforeTitle| + |pageTitle| + 11)
  {
    LinkTagInMiddle(linkTag, mathJax);
    PartAt(BeforeTitle, pageTitle, Middle(linkTag, mathJax), body, AfterBody, 11, linkTag);
  }

  /** A piece of the third of five concatenated parts occurs in the whole at the matching offset. */
  lemma PartAt(a: string, b: string, c: string, d: string, e: string, off: nat, x: string)
    requires off + |x| <= |c| && c[off..off + |x|] == x
    ensures OccursAt(a + b + c + d + e, x, |a| + |b| + off)
  {
    FiveParts(a, b, c, d, e);
    SliceWithin(a + b + c + d + e, |a| + |b|, c, off, x);
  }

  lemma LinkTagInMiddle(linkTag: string, mathJax: string)
    ensures var m := Middle(linkTag, mathJax);
      11 + |linkTag| <= |m| && m[11..11 + |linkTag|] == linkTag
  {
    var head := "</title>\n  " + linkTag;
    var m := Middle(linkTag, mathJax);
    assert m == head + m[|head|..];
    SliceOfPrefix(head, m[|head|..], 11, 11 + |linkTag|);
  }

  /** A slice inside the first part of a concatenation is a slice of that part. */
  lemma SliceOfPrefix(s: string, t: string, i: nat, j: nat)
    requires i <= j <= |s|
    ensures (s + t)[i..j] == s[i..j]
  {
  }

  /** A slice of a slice is a slice of the whole. */
  lemma SliceWithin(page: string, j: nat, m: string, off: nat, x: string)
    requires j + |m| <= |page| && page[j..j + |m|] == m
    requires off + |x| <= |m| && m[off..off + |x|] == x
    ensures OccursAt(page, x, j + off)
  {
    forall k | 0 <= k < |x| ensures page[j + off + k] == x[k] {
      assert x[k] == m[off + k] == page[j..j + |m|][off + k];
    }
    assert page[j + off..j + off + |x|] == x;
  }

  /**
   * The page can be read back: the title sits right after the fixed head start and
   * before `</title>`, and the body sits inside the `markdown-body` article, at the
   * end of the page before the fixed closing tags.
   */
  lemma FullHtmlParts(pageTitle: string, linkTag: string, mathJax: string, body: string)
    ensures var page := FullHtml(pageTitle, linkTag, mathJax, body);
      var b := |page| - |AfterBody| - |body|;
      |BeforeTitle| + |pageTitle| + 8 <= b &&
      page[..|BeforeTitle|] == BeforeTitle &&
      page[|BeforeTitle|..|BeforeTitle| + |pageTitle|] == pageTitle &&
      page[|BeforeTitle| + |pageTitle|..|BeforeTitle| + |pageTitle| + 8] == "</title>" &&
      page[b - 32..b] == ArticleOpen && ArticleOpen == "<article class=\"markdown-body\">\n" &&
      page[b..b + |body|] == body &&
      page[b + |body|..] == "\n</article>\n</body>\n</html>\n"
  {
    var m := Middle(linkTag, mathJax);
    MiddleParts(linkTag, mathJax);
    FiveParts(BeforeTitle, pageTitle, m, body, AfterBody);
    var t := |BeforeTitle| + |pageTitle|;
    var page := FullHtml(pageTitle, linkTag, mathJax, body);
    assert page[t..t + 8] == page[t..t + |m|][..8];
    assert page[t + |m| - 32..t + |m|] == page[t..t + |m|][|m| - 32..];
  }

  /** The text between title and body opens with `</title>` and ends with the article start. */
  lemma MiddleParts(linkTag: string, mathJax: string)
    ensures var m := Middle(linkTag, mathJax);
      |m| >= 40 && m[..8] == "</title>" && m[|m| - 32..] == ArticleOpen && |ArticleOpen| == 32
  {
  }

  /** The five parts of a concatenation can be sliced back out of it. */
  lemma FiveParts(a: string, b: string, c: string, d: string, e: string)
    ensures var s := a + b + c + d + e;
      var i, j, k := |a|, |a| + |b|, |a| + |b| + |c|;
      s[..i] == a && s[i..j] == b && s[j..k] == c && s[k..k + |d|] == d && s[k + |d|..] == e
  {
  }
}
