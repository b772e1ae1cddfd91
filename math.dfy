/**
 * The LaTeX pass of `convert_md_to_html`: `re.sub(r"\$\$(.+?)\$\$", …, re.DOTALL)`
 * over the serialised body. Scanning left to right, a match starts at a `$$`,
 * its group is the shortest non-empty run up to the next `$$` (newlines
 * included), and it is replaced by the stripped group inside a `mathjax` span;
 * the scan then resumes after the closing `$$`. Where no match starts, the
 * character is copied and the scan moves on by one.
 */
module MathJax {
  import opened Wrappers
  import opened Strings

  /** `'<span class="mathjax">{}</span>'.format(latex)` */
  function Wrap(latex: string): string {
    "<span class=\"mathjax\">" + latex + "</span>"
  }

  /** Whether a `$$` delimiter starts at index `k`. */
  predicate Delimiter(s: string, k: int) {
    OccursAt(s, "$$", k)
  }

  /** The first `$$` at or after index `j`. */
  function CloseFrom(s: string, j: nat): (r: Option<nat>)
    ensures r.Some? ==> (j <= r.value && Delimiter(s, r.value) &&
      forall k :: j <= k < r.value ==> !Delimiter(s, k))
    ensures r.None? ==> forall k :: j <= k ==> !Delimiter(s, k)
    decreases |s| - j
  {
    if j + 2 > |s| then None
    else if s[j..j + 2] == "$$" then Some(j)
    else CloseFrom(s, j + 1)
  }

  /**
   * The match at the start of `s`, as the index of its closing `$$`: the group is
   * `s[2..j]`, at least one character long.
   */
  function Close(s: string): (r: Option<nat>)
    ensures r.Some? ==> 3 <= r.value && r.value + 2 <= |s|
  {
    if Delimiter(s, 0) then CloseFrom(s, 3) else None
  }

  /** `pattern.sub(replacer, body)` */
  function MathSub(s: string): (r: string)
    decreases |s|
  {
    if s == [] then []
    else match Close(s)
      case Some(j) => Wrap(Strip(s[2..j])) + MathSub(s[j + 2..])
      case None => [s[0]] + MathSub(s[1..])
  }

  /** A `$$` in the tail of a string is a `$$` in the string. */
  lemma DelimiterTail(s: string)
    requires s != [] && !Contains(s, "$$")
    ensures !Contains(s[1..], "$$")
  {
    forall i | 0 <= i <= |s[1..]| ensures !OccursAt(s[1..], "$$", i) {
      if OccursAt(s[1..], "$$", i) {
        assert s[i + 1..i + 3] == s[1..][i..i + 2];
        assert OccursAt(s, "$$", i + 1);
      }
    }
  }

  /** Text without `$$` passes through unchanged. */
  lemma {:induction false} NoDelimiter(s: string)
    requires !Contains(s, "$$")
    ensures MathSub(s) == s
    decreases |s|
  {
    if s != [] {
      assert !Delimiter(s, 0);
      DelimiterTail(s);
      NoDelimiter(s[1..]);
    }
  }

  /**
   * Text before the first `$$` (one that does not end in `$`, so that it cannot
   * form a `$$` with what follows) is copied as it is.
   */
  lemma {:induction false} LiteralPrefix(a: string, t: string)
    requires !Contains(a + "$", "$$")
    ensures MathSub(a + t) == a + MathSub(t)
    decreases |a|
  {
    if a == [] {
      assert a + t == t;
    } else {
      LiteralStart(a, t);
      calc {
        MathSub(a + t);
      == { CopyHeadOf(a, t); }
        [a[0]] + MathSub(a[1..] + t);
      == { LiteralPrefix(a[1..], t); }
        [a[0]] + (a[1..] + MathSub(t));
      == { Recons(a, MathSub(t)); }
        a + MathSub(t);
      }
    }
  }

  /** Putting a head back in front of its tail, inside a concatenation. */
  lemma Recons(a: string, m: string)
    requires a != []
    ensures [a[0]] + (a[1..] + m) == a + m
  {
    assert a == [a[0]] + a[1..];
  }

  /** `CopyHead` for text split in two at a non-empty first part. */
  lemma CopyHeadOf(a: string, t: string)
    requires a != [] && !Delimiter(a + t, 0) && (a + t)[0] == a[0]
    ensures MathSub(a + t) == [a[0]] + MathSub(a[1..] + t)
  {
    var s := a + t;
    CopyHead(s);
    assert s[1..] == a[1..] + t;
  }

  /** Where no match starts, one character is copied. */
  lemma CopyHead(s: string)
    requires s != [] && !Delimiter(s, 0)
    ensures MathSub(s) == [s[0]] + MathSub(s[1..])
  {
  }

  /** No match starts at the head of such a prefix, and its tail is such a prefix too. */
  lemma LiteralStart(a: string, t: string)
    requires a != [] && !Contains(a + "$", "$$")
    ensures !Delimiter(a + t, 0) && (a + t)[0] == a[0]
    ensures !Contains(a[1..] + "$", "$$")
  {
    var s, y := a + t, a + "$";
    assert !OccursAt(y, "$$", 0);
    if |a| >= 2 {
      assert s[0] == y[0] && s[1] == y[1];
    } else {
      assert y == [a[0], '$'];
      assert s[0] == a[0] != '$';
    }
    DelimiterTail(y);
    assert y[1..] == a[1..] + "$";
  }

  /**
   * `$$x$$` at the start, where `x` is non-empty and no earlier `$$` could close
   * it, becomes the span around `x` stripped; the scan resumes after it.
   */
  lemma OneMatch(x: string, b: string)
    requires x != [] && !Contains(x[1..] + "$", "$$")
    ensures MathSub("$$" + x + "$$" + b) == Wrap(Strip(x)) + MathSub(b)
  {
    var s := "$$" + x + "$$" + b;
    var m := |x| + 2;
    var y := x[1..] + "$";
    assert Delimiter(s, 0);
    assert s[m..m + 2] == "$$";
    assert Delimiter(s, m);
    forall k | 3 <= k < m ensures !Delimiter(s, k) {
      if Delimiter(s, k) {
        assert s[k] == y[k - 3] && s[k + 1] == y[k - 2];
        assert y[k - 3..k - 1] == "$$";
        assert OccursAt(y, "$$", k - 3);
      }
    }
    var r := CloseFrom(s, 3);
    assert r.Some? && !(r.value < m) && !(m < r.value);
    assert s[2..m] == x && s[m + 2..] == b;
  }

  /**
   * A leading `$$` stays literal exactly when no `$$` can close it: none starts
   * at index 1 or later of what follows (a `$$` right at index 0 would close an
   * empty group, which the pattern does not allow).
   */
  lemma Unclosed(b: string)
    ensures MathSub("$$" + b) == "$$" + b <==> forall k :: 1 <= k ==> !Delimiter(b, k)
  {
    if forall k :: 1 <= k ==> !Delimiter(b, k) {
      UnclosedLiteral(b);
    } else {
      var k :| 1 <= k && Delimiter(b, k);
      UnclosedCloses(b, k);
    }
  }

  lemma UnclosedLiteral(b: string)
    requires forall k :: 1 <= k ==> !Delimiter(b, k)
    ensures MathSub("$$" + b) == "$$" + b
  {
    var s := "$$" + b;
    forall k | 3 <= k ensures !Delimiter(s, k) {
      if Delimiter(s, k) {
        assert s[k..k + 2] == b[k - 2..k];
        assert Delimiter(b, k - 2);
      }
    }
    assert Close(s).None?;
    assert s[1..] == "$" + b;
    DollarLiteral(b);
    assert MathSub(s) == [s[0]] + MathSub("$" + b);
  }

  /** The second `$` of such an unclosed `$$` and what follows stay literal. */
  lemma DollarLiteral(b: string)
    requires forall k :: 1 <= k ==> !Delimiter(b, k)
    ensures MathSub("$" + b) == "$" + b
  {
    var t := "$" + b;
    forall k | 3 <= k ensures !Delimiter(t, k) {
      assert !Delimiter(b, k - 1);
    }
    assert Close(t).None?;
    assert t[1..] == b;
    TailLiteral(b);
    assert MathSub(t) == [t[0]] + MathSub(b);
  }

  /** Text with no `$$` past its first character stays literal. */
  lemma TailLiteral(b: string)
    requires forall k :: 1 <= k ==> !Delimiter(b, k)
    ensures MathSub(b) == b
  {
    if b != [] {
      if Delimiter(b, 0) {
        assert CloseFrom(b, 3).None?;
      }
      assert Close(b).None?;
      forall i | 0 <= i <= |b[1..]| ensures !OccursAt(b[1..], "$$", i) {
        if OccursAt(b[1..], "$$", i) {
          assert b[i + 1..i + 3] == b[1..][i..i + 2];
          assert Delimiter(b, i + 1);
        }
      }
      NoDelimiter(b[1..]);
      assert b == [b[0]] + b[1..];
    }
  }

  /** A `$$` at index 1 or later of what follows closes the leading one into a span. */
  lemma UnclosedCloses(b: string, k: nat)
    requires 1 <= k && Delimiter(b, k)
    ensures MathSub("$$" + b)[0] == '<' != ("$$" + b)[0]
  {
    var s := "$$" + b;
    assert s[k + 2..k + 4] == b[k..k + 2];
    assert Delimiter(s, k + 2);
    assert Delimiter(s, 0);
    var j := Close(s).value;
    assert MathSub(s) == Wrap(Strip(s[2..j])) + MathSub(s[j + 2..]);
  }

  /**
   * One formula in running text: everything before it is copied, the formula is
   * replaced by its span, and the rest is processed on its own.
   */
  lemma TextWithFormula(a: string, x: string, b: string)
    requires !Contains(a + "$", "$$")
    requires x != [] && !Contains(x[1..] + "$", "$$")
    ensures MathSub(a + "$$" + x + "$$" + b) == a + Wrap(Strip(x)) + MathSub(b)
  {
    var t := "$$" + x + "$$" + b;
    calc {
      MathSub(a + "$$" + x + "$$" + b);
      { assert a + "$$" + x + "$$" + b == a + t; }
      MathSub(a + t);
      { LiteralPrefix(a, t); }
      a + MathSub(t);
      { OneMatch(x, b); }
      a + (Wrap(Strip(x)) + MathSub(b));
      a + Wrap(Strip(x)) + MathSub(b);
    }
  }
}
