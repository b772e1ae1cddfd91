# Markdown page converter and HTML title normalizer, in Dafny

This project models the two scripts of a small static-site repository.

- `convert.py`: `convert_md_to_html` turns a Markdown file into a standalone HTML
  page. It runs these passes in order:
  - adds hard line breaks to the source lines;
  - renders the Markdown;
  - gives every heading the class `atx` and takes the first `h1` as the title;
  - moves a stray `<p>` that follows a `<ul>` into that list's last `<li>`;
  - remaps syntax-highlighter class tokens through a fixed table;
  - replaces `$$…$$` formulas with MathJax spans;
  - places the body in a fixed page skeleton under a resolved title.
- `process.py`: the per-file body of `update_html_titles`, which edits an HTML
  tree in place. It:
  - takes the title from the first `h1`, or falls back to `Page`;
  - creates a `title` (and a `head`) when missing;
  - removes every `script`;
  - makes sure a `head` exists;
  - appends one stylesheet `link`.

  The file is written only in the `h1` branch, and before the script, head and
  link steps, so only the title change reaches disk.

## How the model is built

**The tree.** A parsed document is a `seq<Node>`, where
`Node = Text(text) | Element(id, tag, classes, attrs, children)`.
- `classes == None` means there is no class attribute.
- `id` stands for object identity. The scripts collect references with
  `find_all` and then mutate the tree through them, so the model collects ids and
  edits "the element with that id".

**The soup** (`Soups.Soup`) is a class over the shared tree.
- Its fields are `roots` and `nextId`.
- Each method is one BeautifulSoup call the scripts make: `new_tag`,
  `tag['class'] = …`, `.string.replace_with`, `insert(0, …)`, `append`,
  `decompose` / `extract`.
- Its invariant says identities are distinct and have all been issued.

**Loops become methods.** Every loop of the source is a method with that loop.
Each method is proved equal to a specification function on the tree:
- `Classified` for the heading pass;
- `AbsorbAll` for the list pass;
- `Remapped` for the class remap;
- `Prune` for script removal.

The properties are then lemmas about those functions.

**Outside code becomes parameters.** The Markdown renderer, the HTML parser,
the serializer `str(soup)` and the MathJax configuration block are
function-typed or string parameters.

Modules:

| module | file | models |
|---|---|---|
| `Wrappers`, `Strings` | wrappers.dfy, strings.dfy | `Option`/`Result`; Python's `strip`, `rstrip('\n')`, `endswith`, `in`, `split()`, `''.join` |
| `Tree`, `Edits`, `Rewrites`, `Soups` | tree.dfy, edits.dfy, rewrites.dfy, soup.dfy | the parsed tree, `find`/`find_all`/`.string`, single edits, whole-tree rewrites, the soup object |
| `HardBreaks` | hard_breaks.dfy | convert.py lines 37-45 |
| `Headings` | headings.dfy | convert.py lines 60-65 |
| `Lists` | lists.dfy | convert.py lines 68-76 |
| `Classes` | classes.dfy | convert.py lines 6-14 and 79-85 |
| `MathJax` | math.dfy | convert.py lines 88-94 |
| `Page` | page.dfy | convert.py lines 97-130 |
| `Converter` | convert.dfy | convert.py lines 37-130, the passes in order |
| `Normalizer` | normalize.dfy | process.py lines 13-56 |

## Model

| member | source | states |
|---|---|---|
| HardBreaks.HardBreak | convert.py:40-43 | every processed line ends in exactly one newline, and its text is the line without trailing newlines, possibly followed by two spaces |
| HardBreaks.HardBreakAll | convert.py:38-43 | the pass keeps the number of lines |
| HardBreaks.NormalizeLines | convert.py:38-43 | the loop that builds `processed_lines` produces the per-line rule applied to every line, in order |
| HardBreaks.HardBreakOfLine | convert.py:40-43 | for a line as `readlines` yields it (with or without its newline), two spaces are added exactly when the text is non-empty, does not end in two spaces and has no `<br>`; otherwise the text is kept; one newline always ends it, also for a last line that had none |
| HardBreaks.HardBreakIdempotent | convert.py:40-43 | applying the per-line rule to its own output changes nothing |
| HardBreaks.HardBreakAllIdempotent | convert.py:38-43 | the whole line pass is idempotent |
| Strings.StripSpec | convert.py:63 | `strip()` removes exactly the leading and trailing whitespace: the result is a slice of the input with no whitespace at either end |
| Strings.StripIdempotent | convert.py:91 | stripping twice is stripping once |
| Strings.SplitWords | convert.py:84 | every word `split()` yields is non-empty and free of whitespace |
| Tree.FindIsFirst | process.py:13 | `find` returns the first element `find_all` returns, and nothing when that list is empty |
| Tree.LookupOfFound | process.py:17-18 | under distinct identities, the element `find` returned is the element its identity designates |
| Soups.Soup.constructor | convert.py:59 | parsing gives fresh objects: the tree is the parser's tree, with distinct identities issued in document order |
| Soups.Soup.NewTag | process.py:51-55 | `new_tag` gives a detached element with a fresh identity and leaves the tree alone |
| Soups.Soup.SetClass | convert.py:65 | `tag['class'] = …` sets the class attribute of the designated element and nothing else |
| Soups.Soup.ReplaceString | process.py:18 | `.string.replace_with` replaces the string of the designated element |
| Soups.Soup.InsertAtTop | process.py:26 | `soup.insert(0, …)` makes the node the first top-level node |
| Soups.Soup.Remove | process.py:38 | `decompose` removes the element with its subtree and keeps identities distinct and issued |
| Soups.Soup.InsertFirst | process.py:24 | `insert(0, child)` makes the child the first child of the designated element |
| Soups.Soup.Append | process.py:56 | `append(child)` makes the child the last child of the designated element |
| Headings.Classified | convert.py:60-65 | defines the heading pass: `atx` appended to the classes of every `h1`-`h6` |
| Headings.CapturedTitle | convert.py:60-63 | defines the title capture: an explicit title stays; otherwise the first `h1`'s stripped `.string`, AttributeError when it is None, or no title without an `h1` |
| Headings.ClassifyHeadings | convert.py:60-65 | the heading loop: the title is the captured title; the tree becomes `Classified` of the input when no exception is raised, and is untouched when the first `h1` has no `.string` |
| Headings.ClassifyLevel | convert.py:61-65 | the loop over one level's headings extends the rewrite from the levels below it to this level, and captures the title at level 1 |
| Headings.ClassifiedElement | convert.py:64-65 | every `h1`-`h6` element gets `atx` as its last class token after its previous tokens in order (a missing class attribute reads as empty); other elements keep their classes; tag, attributes and identity are kept |
| Headings.ClassifiedKeepsRest | convert.py:60-65 | nothing but class attributes changes, and the same elements stay in the same order |
| Headings.ClassifiedTwice | convert.py:65 | there is no de-duplication: a second run adds a second `atx` |
| Headings.CapturedTitleFirstHeading | convert.py:60-63 | with no explicit title, the first `h1` in document order decides alone: its stripped `.string` (even when empty), or AttributeError when its `.string` is None; with no `h1` there is no title |
| Headings.FirstHeading | convert.py:62-63 | the title read in the loop (after earlier levels changed classes) is the one read from the input |
| Lists.NextElement | convert.py:70-72 | the next sibling element is the first element after the `ul` among its siblings, skipping only text nodes; none exists exactly when only text follows |
| Lists.NextSiblingElement | convert.py:70-72 | the skipping loop finds that element |
| Lists.AbsorbStrayParagraphs | convert.py:68-76 | the loop over the `ul`s collected up front, in document order, gives `AbsorbAll` of the tree, or the IndexError it raises |
| Lists.AbsorbAll | convert.py:68-76 | the only exception the pass raises is the missing `li` |
| Lists.AbsorbAfter | convert.py:68-76 | defines one iteration for the `ul` with a given identity: find it among its siblings, skip text to the next element, and when that is a `p`, detach it and append it to the last `li` below the `ul`, or raise IndexError when there is none |
| Lists.AbsorbAnywhere | convert.py:68-76 | for a `ul` anywhere in the tree, nested or not: no change when no element follows it or the next element is not a `p`; IndexError when it is a `p` and the `ul` holds no `li`; otherwise the `p` is now the last child of the last `li` (in document order, nested lists included), that `li` is otherwise as before, the `p` occurs exactly once in the tree, identities stay distinct and no element comes or goes |
| Lists.AbsorbParagraph | convert.py:74-76 | a `ul` anywhere among the top-level nodes, followed (after text nodes only) by a `p`: the `p` is detached and appended as the last child of the last `li` below the `ul`, which may be a nested `li`; the nodes before and after stay as they were, in order |
| Lists.AbsorbNotParagraph | convert.py:74 | a `ul` anywhere among the top-level nodes, followed by an element other than `p` or by text only, is left as it is |
| Lists.AbsorbNoListItem | convert.py:75 | a `ul` anywhere among the top-level nodes, with no `li` and followed by a `p`, raises IndexError |
| Lists.AbsorbKeepsElements | convert.py:75-76 | one move neither creates nor loses an element |
| Lists.AbsorbAllKeepsElements | convert.py:68-76 | the whole pass neither creates nor loses an element |
| Lists.ListSiblings | convert.py:70-72 | a `ul` anywhere among the top-level nodes is found there, and when text nodes and then an element follow it, that element is its next sibling element |
| Lists.DetachParagraph | convert.py:76 | `extract` removes the paragraph and leaves the nodes before and after it in order |
| Lists.NestedEmptyListFails | convert.py:68-76 | `<ul><li>A<ul></ul></li></ul><p>X</p>`: the `ul`s are collected before any move, so after the `p` moves into the `li` behind the empty nested `ul`, that `ul` is visited, finds the `p` and raises IndexError |
| Lists.NestedListItemGetsParagraph | convert.py:68-76 | `<ul><li>A<ul><li>B</li></ul></li></ul><p>X</p>`: the last `li` of the outer `ul` is the nested one, so the `p` lands there and nothing else moves |
| Classes.Remap | convert.py:81-84 | defines the new class list: each token's table entry (or the token), split into words, in order |
| Classes.Remapped | convert.py:79-85 | defines the class pass: every element with a class attribute gets the remap of its list |
| Classes.MappedValue | convert.py:6-14 | every value of the table is `token` followed by one of the six kinds, as two words |
| Classes.RemapMapped | convert.py:83-84 | a token found in the table becomes the two words `token` and its kind |
| Classes.RemapUnmapped | convert.py:83-84 | a token not in the table (such as `atx`) passes through unchanged |
| Classes.RemapConcat | convert.py:81-84 | the remap works token by token: the remap of a concatenation is the concatenation of the remaps |
| Classes.RemapTokenwise | convert.py:79-85 | for a class list, the remap is the independent token-by-token reading: one or two tokens per input token, in input order, with no de-duplication |
| Classes.RemapTokens | convert.py:80-84 | the loop that builds `new_classes` computes the remap of the class list |
| Classes.RemapIdempotent | convert.py:79-85 | remapping twice is remapping once, since no output token is a key of the table |
| Classes.FixedTokens | convert.py:6-14 | no token the remap produces is a key of the table |
| Classes.RemapFixed | convert.py:83 | a class list with no table key is left as it is |
| Classes.RemappedElement | convert.py:79-85 | an element with a class attribute gets the remap of its list; one without keeps none; tag, attributes and identity are kept |
| Classes.RemappedKeepsRest | convert.py:79-85 | nothing but class attributes changes |
| Classes.RemapAllClasses | convert.py:79-85 | the loop over the elements with a class attribute gives `Remapped` of the tree |
| MathJax.CloseFrom | convert.py:89 | the closing delimiter is the first `$$` at or after the given position, so the match is the shortest one |
| MathJax.Close | convert.py:89 | a match holds at least one character between its delimiters |
| MathJax.NoDelimiter | convert.py:94 | text with no `$$` is returned unchanged |
| MathJax.LiteralPrefix | convert.py:94 | text before the first `$$` is copied unchanged, and scanning resumes after it |
| MathJax.OneMatch | convert.py:89-94 | a formula `$$X$$` (X non-empty, with the first closing `$$` ending it, newlines allowed) becomes the MathJax span around strip(X), and scanning continues after it |
| MathJax.MathSub | convert.py:88-94 | defines the substitution: at a `$$` that a later `$$` closes around at least one character, the stripped group in a `mathjax` span, then on after the closing `$$`; elsewhere one character copied |
| MathJax.Unclosed | convert.py:89-94 | a leading `$$` stays literal, with all that follows, exactly when no `$$` starts at index 1 or later of the rest (so `$$$$x` stays literal too); otherwise it opens a span |
| MathJax.TextWithFormula | convert.py:88-94 | text, then one formula, then more: the text is copied, the formula wrapped, and the rest scanned on |
| Page.AfterLastSep | convert.py:97 | the base name is the longest suffix with no path separator |
| Page.LastDot | convert.py:97 | the extension starts at the last dot of the name |
| Page.BasenameOfJoin | convert.py:97 | `basename(dir/name)` is `name` for either separator |
| Page.StemOfExtension | convert.py:97 | `splitext` drops the last extension of a name that is not all dots |
| Page.StemOfDotFile | convert.py:97 | a name whose only dot is its leading one (`.bashrc`) has no extension |
| Page.PageTitleOfPath | convert.py:97 | the page title is the given title when non-empty, otherwise the file name without its extension, so an empty captured title also falls back |
| Page.Basename | convert.py:97 | defines `ntpath.basename`: a drive prefix is split off, then the part after the last separator |
| Page.Stem | convert.py:97 | defines `splitext(name)[0]`: the text before the last dot unless only dots precede it |
| Page.PageTitle | convert.py:97 | defines the title choice: the title when non-empty, else the stem of the base name |
| Page.LinkTag | convert.py:100 | defines the link line: present for a non-empty `css_href`, else empty |
| Page.FullHtml | convert.py:101-130 | defines the page: the skeleton around the title, the link line, the MathJax block and the body |
| Page.LinkTagAt | convert.py:101-107 | the link line sits in the page right after `</title>`, a newline and two spaces |
| Page.LinkTagPresent | convert.py:100 | the stylesheet link is emitted exactly when `css_href` is non-empty, and holds it as its `href` |
| Page.FullHtmlParts | convert.py:101-130 | the page is the fixed preamble, the title closed by `</title>`, and the body alone inside `<article class="markdown-body">` at the end of the page |
| Converter.Converted | convert.py:37-130 | defines the conversion: the line pass, rendering and parsing, the heading pass, the list pass, the class pass, the math pass over the serialised tree, and the page; an exception of the heading or list pass is the result |
| Converter.DefaultCall | convert.py:20-23 | the driver's call (convert.py:161) passes no title and leaves `css_href` at its default, so the page, when produced, contains the link to `https://ayman-tech.github.io/styles.css` |
| Converter.ConvertMarkdown | convert.py:37-130 | the whole conversion, pass after pass over one soup, gives the page (or the exception) `Converted` defines |
| Converter.ConvertedWithTitle | convert.py:97-106 | an explicit non-empty title is never replaced by a heading (the guard on line 62 of convert.py) and is the page's `<title>`; no heading can then raise the AttributeError |
| Normalizer.UsableH1 | process.py:13-15 | defines the title source: the first `h1`'s `.string`, stripped, when it exists and is non-empty |
| Normalizer.ReplaceTitle | process.py:17-18 | defines the replacement of the existing title's string, or AttributeError when its `.string` is None |
| Normalizer.CreateTitle | process.py:19-26 | defines the new title, first in the existing head or in a new head first at the top level |
| Normalizer.Retitled | process.py:13-34 | defines the title step in both branches, with `Page` as the placeholder |
| Normalizer.Unscripted | process.py:37-38 | defines script removal: every `script` with its subtree |
| Normalizer.HeadEnsured | process.py:41-48 | defines the head used: the existing one, or a new one first under `html`, or else first at the top level |
| Normalizer.Linked | process.py:51-56 | defines the link step: the new `link` appended to that head |
| Normalizer.Normalized | process.py:13-56 | defines one file's run: the tree written in the `h1` branch, and the final tree after the three cleanup steps |
| Normalizer.Retitle | process.py:13-34 | the title step on the soup gives `Retitled` of the tree, and returns the tree to be written exactly in the usable-`h1` branch |
| Normalizer.CreateTitleTag | process.py:21-26 | the new title goes first into the existing head, or into a new head inserted first at the top level |
| Normalizer.RemoveScripts | process.py:37-38 | the loop of `decompose` calls removes every `script` found before it |
| Normalizer.EnsureHead | process.py:41-48 | the existing head is used, or a new one is inserted first under `html` or else first at the top level |
| Normalizer.AppendLink | process.py:51-56 | the stylesheet link is appended to that head |
| Normalizer.NormalizeFile | process.py:13-56 | one file: an exception ends it with nothing written; otherwise the written tree and the final tree are those `Normalized` defines |
| Normalizer.UsableH1FirstOnly | process.py:13-15 | only the first `h1` counts, and only when its `.string` is a non-empty string; the title is that string, stripped |
| Normalizer.TitleReplaced | process.py:17-18 | the existing title reads back the new text afterwards; it keeps its identity, and no element comes or goes |
| Normalizer.TitleCreated | process.py:19-26 | without a title, exactly one title exists afterwards, holding the text: first in the existing head, or in a new head placed first among the top-level nodes (not under `html`) |
| Normalizer.PlaceholderTitle | process.py:31-34 | without a usable `h1`, an existing title reads `Page` afterwards, and nothing is created when there is no title |
| Normalizer.ScriptsRemoved | process.py:37-38 | afterwards no `script` is left anywhere; a tree without one is unchanged; no element is created |
| Normalizer.OthersKept | process.py:37-38 | every element of other tags is kept, in document order |
| Normalizer.UnscriptedIssued | process.py:37-38 | removal keeps identities distinct and issued |
| Normalizer.HeadGuaranteed | process.py:41-48 | afterwards the head used exists and is a `head`; an existing head leaves the tree as it is; otherwise the new head is the only one; no `script` or `link` comes or goes |
| Normalizer.HeadPlaced | process.py:41-48 | without a head, the new `head` becomes the first child of the first `html`, which is otherwise unchanged, or the first top-level node when there is no `html` |
| Normalizer.LinkAppended | process.py:51-56 | the head gets the new `link` (rel=stylesheet, href=../styles.css) as its last child; one `link` more exists and earlier ones are kept |
| Normalizer.RetitledKeeps | process.py:13-34 | the title step makes no element of another tag come or go (the text it replaces may sit inside an element under the `title`, since `.string` reads through a single child) |
| Normalizer.WrittenBeforeCleanup | process.py:28-29 | a file is written exactly when a usable `h1` exists; what is written is the tree right after the title step, so it keeps every `script` and gains no `link` |
| Normalizer.CleanupFacts | process.py:36-56 | after a run no `script` is left, the head holds the new link as its last child, and exactly one `link` more exists than after script removal |

## Left out

- File reading and writing, the directory walk, the filename prompt and the `__main__` blocks. These are I/O and command-line plumbing. The model keeps the lines read and the tree that would be written.
- `markdown.markdown` with its extensions, BeautifulSoup's HTML parser, and `str(soup)`. These are outside libraries, and they are parameters of `Converter.Converted`.
- How `html.parser` repairs malformed HTML is not modelled.
- The MathJax configuration and CDN script block of the page. It is constant text with no logic, so it is a string parameter.
- `print` and the per-file `except Exception`. In the model an exception ends that file's run with nothing written (`Failure`); the loop over files is not modelled.
- Page.Basename: the path functions follow Windows rules (`ntpath`: both slashes separate, a drive letter is split off), since the driver walks a `C:\Users\…` directory (convert.py:150). Under POSIX rules `basename("a\\b.md")` would be the whole string; that reading is not modelled.
- Page.AfterLastSep: `ntpath.basename` on UNC paths (`\\server\share`) is not modelled; drive letters and both separators are.
- Normalizer.OthersKept: the property is stated for trees where no `script` holds an element of the kept tags. `html.parser` reads script content as raw text, and the model does not enforce that.
- Converter.ConvertedWithTitle: requires a non-empty explicit title. An empty one falls back to the file name, which Page.PageTitleOfPath states.
- `readlines()` with universal newlines: lines are taken to end in `\n` only.

## Behaviour worth knowing

These points follow the code as written:
- A heading pass run twice adds `atx` twice.
- The `ul` list is collected once, before any move. When the last `li` of a `ul` ends with a nested `ul`, the moved `p` lands right after that nested `ul`. That `ul` holds no `li`, since any `li` in it would come later in document order. So visiting it raises IndexError (Lists.NestedEmptyListFails). A nested `ul` that does hold an `li` gets the `p` at once, because its `li` is then the last one (Lists.NestedListItemGetsParagraph).
- `process.py` writes the file before removing scripts and appending the link, so those two steps never reach disk. The placeholder branch never writes at all.
