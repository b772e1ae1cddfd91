/**
 * Step 1 of the converter: hard-line-break normalisation of the Markdown
 * source lines (convert.py, lines 37-45). A non-empty line that neither ends
 * in two spaces nor contains `<br>` gets two trailing spaces, so that the
 * renderer turns it into an explicit line break; every line comes out
 * terminated by exactly one newline.
 */
module HardBreaks {
  import opened Strings

  /** Whether the line, with its trailing newlines removed, gets two spaces. */
  predicate NeedsBreak(stripped: string) {
    stripped != [] && !EndsWith(stripped, "  ") && !Contains(stripped, "<br>")
  }

  /** The rule the loop body applies to one line. */
  function HardBreak(line: string): (r: string)
    ensures |r| >= 1 && r[|r| - 1] == '\n' && (|r| == 1 || r[|r| - 2] != '\n')
    ensures r[..|r| - 1] == RStripNewlines(line) || r[..|r| - 1] == RStripNewlines(line) + "  "
  {
    var stripped := RStripNewlines(line);
    (if NeedsBreak(stripped) then stripped + "  " else stripped) + "\n"
  }

  /** The whole pass, line by line. */
  function HardBreakAll(lines: seq<string>): (r: seq<string>)
    ensures |r| == |lines|
  {
    seq(|lines|, i requires 0 <= i < |lines| => HardBreak(lines[i]))
  }

  /** The loop of convert.py: builds `processed_lines` by appending one line at a time. */
  method NormalizeLines(lines: seq<string>) returns (processed: seq<string>)
    ensures processed == HardBreakAll(lines)
  {
    processed := [];
    var k := 0;
    while k < |lines|
      invariant 0 <= k <= |lines|
      invariant |processed| == k
      invariant forall i :: 0 <= i < k ==> processed[i] == HardBreak(lines[i])
    {
      var stripped := RStripNewlines(lines[k]);
      if stripped != [] && !EndsWith(stripped, "  ") && !Contains(stripped, "<br>") {
        stripped := stripped + "  ";
      }
      assert stripped + "\n" == HardBreak(lines[k]);
      processed := processed + [stripped + "\n"];
      k := k + 1;
    }
  }

  /**
   * The per-line rule in terms of a line as `readlines` yields it: its text `c`
   * (no trailing newline), optionally followed by one newline. The text is kept,
   * two spaces are added exactly when the rule asks for them, and one newline
   * ends the result, also for a last line that had none.
   */
  lemma HardBreakOfLine(c: string, terminated: bool)
    requires c == [] || c[|c| - 1] != '\n'
    ensures var line := if terminated then c + "\n" else c;
      HardBreak(line) == (if NeedsBreak(c) then c + "  \n" else c + "\n")
    ensures NeedsBreak(c) <==> c != [] && !EndsWith(c, "  ") && !Contains(c, "<br>")
  {
    var line := if terminated then c + "\n" else c;
    RStripNewlinesOfLine(c, terminated);
    assert RStripNewlines(line) == c;
  }

  lemma RStripNewlinesOfLine(c: string, terminated: bool)
    requires c == [] || c[|c| - 1] != '\n'
    ensures RStripNewlines(if terminated then c + "\n" else c) == c
  {
    if terminated {
      assert (c + "\n")[..|c|] == c;
    }
  }

  /** Running the rule on its own output changes nothing. */
  lemma HardBreakIdempotent(line: string)
    ensures HardBreak(HardBreak(line)) == HardBreak(line)
  {
    var stripped := RStripNewlines(line);
    var body := if NeedsBreak(stripped) then stripped + "  " else stripped;
    assert body == [] || body[|body| - 1] != '\n';
    RStripNewlinesOfLine(body, true);
    assert RStripNewlines(HardBreak(line)) == body;
    if NeedsBreak(stripped) {
      assert EndsWith(body, "  ");
    } else if stripped != [] && !EndsWith(stripped, "  ") {
      ContainsPrefix(stripped, [], "<br>");
      assert stripped + [] == stripped;
    }
    assert !NeedsBreak(body);
  }

  /** The pass as a whole is idempotent. */
  lemma HardBreakAllIdempotent(lines: seq<string>)
    ensures HardBreakAll(HardBreakAll(lines)) == HardBreakAll(lines)
  {
    forall i | 0 <= i < |lines|
      ensures HardBreakAll(HardBreakAll(lines))[i] == HardBreakAll(lines)[i]
    {
      HardBreakIdempotent(lines[i]);
    }
  }
}
