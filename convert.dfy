/**
 * `convert_md_to_html` from the read Markdown lines to the page text that is
 * written out: the passes in their order, over one shared soup. The Markdown
 * renderer, the HTML parser and the serialiser (`str(soup)`) are parameters.
 */
module Converter {
  import opened Wrappers
  import opened Strings
  import opened Tree
  import opened Soups
  import opened HardBreaks
  import opened Headings
  import opened Lists
  import opened Classes
  import opened MathJax
  import opened Page

  /** The page `convert_md_to_html` writes, or the exception that stops it. */
  function Converted(lines: seq<string>, title: Option<string>, mdPath: string, cssHref: Option<string>,
                     render: string -> string, parse: string -> seq<Node>, serialize: seq<Node> -> string,
                     mathJax: string): Result<string, Failure>
  {
    var parsed := Renumber(parse(render(Concat(HardBreakAll(lines)))), 0).0;
    match CapturedTitle(parsed, title)
    case Err(e) => Err(e)
    case Ok(t) =>
      var classified := Classified(parsed);
      match AbsorbAll(classified, FindAll(classified, Named({"ul"})))
      case Err(e) => Err(e)
      case Ok(absorbed) =>
        Ok(FullHtml(PageTitle(t, mdPath), LinkTag(cssHref), mathJax, MathSub(serialize(Remapped(absorbed)))))
  }

  /** The body of `convert_md_to_html`, step by step. */
  method ConvertMarkdown(lines: seq<string>, title: Option<string>, mdPath: string, cssHref: Option<string>,
                         render: string -> string, parse: string -> seq<Node>, serialize: seq<Node> -> string,
                         mathJax: string) returns (r: Result<string, Failure>)
    ensures r == Converted(lines, title, mdPath, cssHref, render, parse, serialize, mathJax)
  {
    var processedLines := NormalizeLines(lines);
    var mdText := Concat(processedLines);
    var soup := new Soup(parse(render(mdText)));
    var captured := ClassifyHeadings(soup, title);
    if captured.Err? {
      return Err(captured.error);
    }
    var failure := AbsorbStrayParagraphs(soup);
    if failure.Some? {
      return Err(failure.value);
    }
    RemapAllClasses(soup);
    var processedBody := MathSub(serialize(soup.roots));
    var pageTitle := PageTitle(captured.value, mdPath);
    r := Ok(FullHtml(pageTitle, LinkTag(cssHref), mathJax, processedBody));
  }

  /**
   * An explicit non-empty title reaches the page unchanged, and a page is produced
   * unless the list pass meets a `ul` without `li`; the body is the math pass over
   * the serialised tree, inside the article.
   */
  lemma ConvertedWithTitle(lines: seq<string>, title: string, mdPath: string, cssHref: Option<string>,
                           render: string -> string, parse: string -> seq<Node>, serialize: seq<Node> -> string,
                           mathJax: string)
    requires title != []
    ensures var r := Converted(lines, Some(title), mdPath, cssHref, render, parse, serialize, mathJax);
      r != Err(StringIsNone) &&
      (r.Ok? ==> var page := r.value;
        |BeforeTitle| + |title| + 8 <= |page| &&
        page[|BeforeTitle|..|BeforeTitle| + |title|] == title &&
        page[|BeforeTitle| + |title|..|BeforeTitle| + |title| + 8] == "</title>")
  {
    var r := Converted(lines, Some(title), mdPath, cssHref, render, parse, serialize, mathJax);
    var parsed := Renumber(parse(render(Concat(HardBreakAll(lines)))), 0).0;
    assert CapturedTitle(parsed, Some(title)) == Ok(Some(title));
    if r.Ok? {
      var classified := Classified(parsed);
      var absorbed := AbsorbAll(classified, FindAll(classified, Named({"ul"}))).value;
      var body := MathSub(serialize(Remapped(absorbed)));
      assert PageTitle(Some(title), mdPath) == title;
      assert r.value == FullHtml(title, LinkTag(cssHref), mathJax, body);
      FullHtmlParts(title, LinkTag(cssHref), mathJax, body);
    }
  }

  /** The default of `css_href`, which the driver's call leaves in place. */
  const DefaultCssHref: string := "https://ayman-tech.github.io/styles.css"

  /**
   * The driver passes neither a title nor a stylesheet address: the page, when
   * one is produced, links the default stylesheet right after the title.
   */
  lemma DefaultCall(lines: seq<string>, mdPath: string,
                    render: string -> string, parse: string -> seq<Node>, serialize: seq<Node> -> string,
                    mathJax: string)
    ensures var r := Converted(lines, None, mdPath, Some(DefaultCssHref), render, parse, serialize, mathJax);
      r.Ok? ==> Contains(r.value, "<link rel=\"stylesheet\" href=\"" + DefaultCssHref + "\">\n")
  {
    var r := Converted(lines, None, mdPath, Some(DefaultCssHref), render, parse, serialize, mathJax);
    if r.Ok? {
      var parsed := Renumber(parse(render(Concat(HardBreakAll(lines)))), 0).0;
      var t := CapturedTitle(parsed, None).value;
      var classified := Classified(parsed);
      var absorbed := AbsorbAll(classified, FindAll(classified, Named({"ul"}))).value;
      var body := MathSub(serialize(Remapped(absorbed)));
      var pageTitle := PageTitle(t, mdPath);
      var link := LinkTag(Some(DefaultCssHref));
      assert r.value == FullHtml(pageTitle, link, mathJax, body);
      LinkTagAt(pageTitle, link, mathJax, body);
    }
  }
}
