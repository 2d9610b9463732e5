/**
 * `sanitizeSkillContent` (src/lib/skillValidator.ts): the repair applied to a
 * generated skill document before it is validated. Each regular-expression
 * replacement is a function here; the procedure that applies them one after
 * another, and the `findIndex` scan of the final step, is a method proved
 * against the composition of those functions.
 */
module Sanitizer {
  import opened Options
  import opened Text

  // ---------------------------------------------------------------------------
  // Line endings: `replace(/\r\n/g, "\n").replace(/\r/g, "\n")`

  /** Every `\r\n`, scanned left to right without overlap, becomes `\n`. */
  function ReplaceCrLf(s: string): string {
    if |s| >= 2 && s[0] == '\r' && s[1] == '\n' then "\n" + ReplaceCrLf(s[2..])
    else if s == [] then []
    else [s[0]] + ReplaceCrLf(s[1..])
  }

  /** Every remaining `\r` becomes `\n`; nothing else moves. */
  function ReplaceCr(s: string): (r: string)
    ensures |r| == |s|
    ensures forall k | 0 <= k < |s| :: r[k] == (if s[k] == '\r' then '\n' else s[k])
  {
    if s == [] then [] else [if s[0] == '\r' then '\n' else s[0]] + ReplaceCr(s[1..])
  }

  function NormalizeLineEndings(s: string): (r: string)
    ensures '\r' !in r
    ensures '\r' !in s ==> r == s
  {
    var r := ReplaceCr(ReplaceCrLf(s));
    assert forall k | 0 <= k < |r| :: r[k] != '\r';
    assert '\r' !in s ==> r == s by {
      if '\r' !in s {
        ReplaceCrLfKeepsPrefix(s, []);
        assert s + [] == s;
      }
    }
    r
  }

  /** A character other than `\r` passes through the `\r\n` step unchanged. */
  lemma ReplaceCrLfStep(c: char, t: string)
    requires c != '\r'
    ensures ReplaceCrLf([c] + t) == [c] + ReplaceCrLf(t)
  {
    assert ([c] + t)[1..] == t;
  }

  /** Text without `\r` passes through the `\r\n` step untouched, whatever follows it. */
  lemma {:induction false} ReplaceCrLfKeepsPrefix(a: string, b: string)
    requires '\r' !in a
    ensures ReplaceCrLf(a + b) == a + ReplaceCrLf(b)
    decreases |a|
  {
    if a == [] {
      assert a + b == b;
    } else {
      var c, t := a[0], a[1..];
      assert a == [c] + t;
      assert a + b == [c] + (t + b);
      ReplaceCrLfStep(c, t + b);
      ReplaceCrLfKeepsPrefix(t, b);
    }
  }

  /** Text without `\r` passes through the `\r` step untouched, whatever follows it. */
  lemma ReplaceCrKeepsPrefix(a: string, y: string)
    requires '\r' !in a
    ensures ReplaceCr(a + y) == a + ReplaceCr(y)
  {
    var l, r := ReplaceCr(a + y), a + ReplaceCr(y);
    forall k | 0 <= k < |l| ensures l[k] == r[k] {
      if k < |a| {
        assert (a + y)[k] == a[k];
      } else {
        assert (a + y)[k] == y[k - |a|];
      }
    }
  }

  /** The `\r\n` step turns the pair after `\r`-free text into one newline. */
  lemma CrLfPair(a: string, b: string)
    requires '\r' !in a
    ensures ReplaceCrLf(a + "\r\n" + b) == (a + "\n") + ReplaceCrLf(b)
  {
    assert a + "\r\n" + b == a + ("\r\n" + b);
    ReplaceCrLfKeepsPrefix(a, "\r\n" + b);
    assert ("\r\n" + b)[2..] == b;
    assert a + ("\n" + ReplaceCrLf(b)) == (a + "\n") + ReplaceCrLf(b);
  }

  /** The `\r\n` step keeps a lone `\r` after `\r`-free text for the next step. */
  lemma LoneCr(a: string, b: string)
    requires '\r' !in a
    requires b == [] || b[0] != '\n'
    ensures ReplaceCrLf(a + "\r" + b) == a + ("\r" + ReplaceCrLf(b))
  {
    assert a + "\r" + b == a + ("\r" + b);
    ReplaceCrLfKeepsPrefix(a, "\r" + b);
    assert ("\r" + b)[1..] == b;
  }

  /** A `\r\n` pair becomes one newline. */
  lemma NormalizeCrLf(a: string, b: string)
    requires '\r' !in a
    ensures NormalizeLineEndings(a + "\r\n" + b) == a + "\n" + NormalizeLineEndings(b)
  {
    CrLfPair(a, b);
    NewlineKeepsNoCr(a);
    ReplaceCrKeepsPrefix(a + "\n", ReplaceCrLf(b));
  }

  lemma NewlineKeepsNoCr(a: string)
    requires '\r' !in a
    ensures '\r' !in a + "\n"
  {
  }

  /** A `\r` not followed by `\n` becomes a newline too. */
  lemma NormalizeLoneCr(a: string, b: string)
    requires '\r' !in a
    requires b == [] || b[0] != '\n'
    ensures NormalizeLineEndings(a + "\r" + b) == a + "\n" + NormalizeLineEndings(b)
  {
    LoneCr(a, b);
    ReplaceCrKeepsPrefix(a, "\r" + ReplaceCrLf(b));
    CrFirst(ReplaceCrLf(b));
  }

  /** A leading `\r` becomes a newline in the `\r` step. */
  lemma CrFirst(y: string)
    ensures ReplaceCr("\r" + y) == "\n" + ReplaceCr(y)
  {
    assert ("\r" + y)[1..] == y;
  }

  // ---------------------------------------------------------------------------
  // Code fences: `replace(/^```(?:markdown|md)?\s*\n/, "")` and
  // `replace(/\n```\s*$/, "")`

  /** The last newline in `s[lo..hi)`. */
  function LastNewline(s: string, lo: nat, hi: nat): (r: Option<nat>)
    requires lo <= hi <= |s|
    ensures r.Some? ==> lo <= r.value < hi && s[r.value] == '\n'
    ensures r.Some? ==> forall k | r.value < k < hi :: s[k] != '\n'
    ensures r.None? ==> forall k | lo <= k < hi :: s[k] != '\n'
    decreases hi - lo
  {
    if hi == lo then None
    else if s[hi - 1] == '\n' then Some(hi - 1)
    else LastNewline(s, lo, hi - 1)
  }

  /** `\s*\n` from `q`: greedy, so it ends just after the last newline of the blank run. */
  function BlankLineEnd(s: string, q: nat): (r: Option<nat>)
    requires q <= |s|
    ensures r.Some? ==> q < r.value <= |s| && s[r.value - 1] == '\n'
    ensures r.Some? ==> forall k | q <= k < r.value :: IsWs(s[k])
  {
    var w := SkipWs(s, q);
    match LastNewline(s, q, w)
    case Some(j) => Some(j + 1)
    case None => None
  }

  /**
   * Where an opening fence ends: the alternatives `markdown`, `md` and nothing
   * are tried in that order, each followed by `\s*\n`.
   */
  function OpeningFenceEnd(s: string): (r: Option<nat>)
    ensures r.Some? ==> "```" <= s && 3 < r.value <= |s| && s[r.value - 1] == '\n'
  {
    if !("```" <= s) then None
    else if "```markdown" <= s && BlankLineEnd(s, 11).Some? then BlankLineEnd(s, 11)
    else if "```md" <= s && BlankLineEnd(s, 5).Some? then BlankLineEnd(s, 5)
    else BlankLineEnd(s, 3)
  }

  function StripOpeningFence(s: string): (r: string)
    ensures |r| <= |s| && r == s[|s| - |r|..]
    ensures !("```" <= s) ==> r == s
  {
    match OpeningFenceEnd(s)
    case Some(e) => s[e..]
    case None => s
  }

  /** `\n```\s*$` matches at `i`: the fence is followed by nothing but whitespace. */
  predicate ClosingFenceAt(s: string, i: nat) {
    OccursAt(s, "\n```", i) && AllWs(s[i + 4..])
  }

  /** The leftmost position from `i` where the closing fence matches. */
  function FirstClosingFence(s: string, i: nat): (r: Option<nat>)
    requires i <= |s|
    ensures r.Some? ==> i <= r.value < |s| && ClosingFenceAt(s, r.value)
    ensures r.None? ==> forall k | i <= k <= |s| :: !ClosingFenceAt(s, k)
    decreases |s| - i
  {
    if ClosingFenceAt(s, i) then Some(i)
    else if i == |s| then None
    else FirstClosingFence(s, i + 1)
  }

  function StripClosingFence(s: string): (r: string)
    ensures r <= s
  {
    match FirstClosingFence(s, 0)
    case Some(i) => s[..i]
    case None => s
  }

  /**
   * The closing fence can match in one place only: a second `\n```` after it
   * would put backticks where only whitespace may follow the first.
   */
  lemma ClosingFenceUnique(s: string, i: nat, j: nat)
    requires ClosingFenceAt(s, i) && ClosingFenceAt(s, j)
    ensures i == j
  {
    if i < j {
      NoFenceAfterClosing(s, i, j);
      assert false;
    } else if j < i {
      NoFenceAfterClosing(s, j, i);
      assert false;
    }
  }

  /** After a closing fence that matches, no `\n```` starts anywhere later. */
  lemma NoFenceAfterClosing(s: string, i: nat, j: nat)
    requires ClosingFenceAt(s, i) && i < j
    ensures !OccursAt(s, "\n```", j)
  {
    assert s[i..i + 4] == "\n```";
    if j < i + 4 {
      assert s[j] == s[i..i + 4][j - i] == '`';
    } else if j + 1 < |s| {
      assert s[i + 4..][j + 1 - (i + 4)] == s[j + 1];
      assert IsWs(s[j + 1]);
    }
  }

  /** A text, then `\n```` and blanks: the closing-fence step leaves the text. */
  lemma ClosingFenceStripped(b: string, pad: string)
    requires AllWs(pad)
    ensures StripClosingFence(b + "\n```" + pad) == b
  {
    var s := b + "\n```" + pad;
    assert s[|b|..|b| + 4] == "\n```";
    assert s[|b| + 4..] == pad;
    assert ClosingFenceAt(s, |b|);
    var r := FirstClosingFence(s, 0);
    assert r.Some?;
    ClosingFenceUnique(s, r.value, |b|);
    assert s[..|b|] == b;
  }

  /** The fence tags the opening pattern accepts: `markdown`, `md` or none. */
  predicate FenceTag(tag: string) {
    tag == "markdown" || tag == "md" || tag == ""
  }

  /** A newline right before a non-blank character ends `\s*\n` just after it. */
  lemma BlankLineEndsAt(s: string, q: nat)
    requires q + 1 < |s| && s[q] == '\n' && !IsWs(s[q + 1])
    ensures BlankLineEnd(s, q) == Some(q + 1)
  {
    SkipWsCovers(s, q, q + 1);
  }

  /** Three backticks, a tag and a newline before a non-blank line: the opening-fence step leaves that line on. */
  lemma OpeningFenceStripped(tag: string, t: string)
    requires FenceTag(tag) && t != [] && !IsWs(t[0])
    ensures StripOpeningFence("```" + tag + "\n" + t) == t
  {
    var s := "```" + tag + "\n" + t;
    OpeningFenceEndsAt(tag, t);
    assert s[3 + |tag| + 1..] == t;
  }

  lemma OpeningFenceEndsAt(tag: string, t: string)
    requires FenceTag(tag) && t != [] && !IsWs(t[0])
    ensures OpeningFenceEnd("```" + tag + "\n" + t) == Some(|tag| + 4)
  {
    if tag == "markdown" {
      MarkdownOpenerEnds(t);
    } else if tag == "md" {
      MdOpenerEnds(t);
    } else {
      BareOpenerEnds(t);
    }
  }

  lemma MarkdownOpenerEnds(t: string)
    requires t != [] && !IsWs(t[0])
    ensures OpeningFenceEnd("```" + "markdown" + "\n" + t) == Some(12)
  {
    var s := "```" + "markdown" + "\n" + t;
    assert s[11] == '\n' && s[12] == t[0];
    BlankLineEndsAt(s, 11);
    assert s[..3] == "```" && s[..11] == "```markdown";
  }

  lemma MdOpenerEnds(t: string)
    requires t != [] && !IsWs(t[0])
    ensures OpeningFenceEnd("```" + "md" + "\n" + t) == Some(6)
  {
    var s := "```" + "md" + "\n" + t;
    assert s[5] == '\n' && s[6] == t[0];
    BlankLineEndsAt(s, 5);
    MdOpenerIsNotMarkdown(s);
    assert s[..3] == "```" && s[..5] == "```md";
  }

  lemma BareOpenerEnds(t: string)
    requires t != [] && !IsWs(t[0])
    ensures OpeningFenceEnd("```" + "" + "\n" + t) == Some(4)
  {
    var s := "```" + "" + "\n" + t;
    assert s[3] == '\n' && s[4] == t[0];
    BlankLineEndsAt(s, 3);
    assert s[..3] == "```" && s[3] != 'm';
  }

  lemma MdOpenerIsNotMarkdown(s: string)
    requires |s| > 5 && s[5] == '\n'
    ensures !("```markdown" <= s)
  {
    assert "```markdown"[5] == 'r';
  }

  // ---------------------------------------------------------------------------
  // Leading blanks: `replace(/^\s*\n*(---)/, "$1")`

  /**
   * `\s*` already takes every newline, and `---` cannot start inside the
   * blank run, so the pattern matches exactly when `---` follows the run.
   */
  function StripLeadingBlank(s: string): (r: string)
    ensures |r| <= |s| && r == s[|s| - |r|..]
    ensures OccursAt(s, "---", SkipWs(s, 0)) ==> "---" <= r
    ensures !OccursAt(s, "---", SkipWs(s, 0)) ==> r == s
  {
    var w := SkipWs(s, 0);
    if OccursAt(s, "---", w) then s[w..] else s
  }

  /** Blanks and blank lines before a `---` are dropped, and the rest is kept. */
  lemma LeadingBlankStripped(pad: string, t: string)
    requires AllWs(pad)
    ensures StripLeadingBlank(pad + "---" + t) == "---" + t
  {
    var s := pad + "---" + t;
    assert s == pad + ("---" + t);
    assert s[|pad|] == '-';
    SkipWsCovers(s, 0, |pad|);
    assert s[|pad|..] == "---" + t;
    assert s[|pad|..|pad| + 3] == "---";
  }

  // ---------------------------------------------------------------------------
  // Synthesised frontmatter

  /** `^\s*<key>:\s` at the start of a line. */
  predicate KeyAt(l: string, p: nat, key: string) {
    OccursAt(l, key + ":", p) && p + |key| + 1 < |l| && IsWs(l[p + |key| + 1])
  }

  /** `/^\s*(name|description|version|author|tags):\s/`. */
  predicate KeyLine(l: string) {
    var p := SkipWs(l, 0);
    KeyAt(l, p, "name") || KeyAt(l, p, "description") || KeyAt(l, p, "version")
    || KeyAt(l, p, "author") || KeyAt(l, p, "tags")
  }

  /**
   * The `findIndex` of the source, searching from `i`: the first index that is
   * not 0 and holds a line that is not a key line, or -1.
   */
  function FirstNonKeyLine(lines: seq<string>, i: nat): (r: int)
    requires i <= |lines|
    ensures r == -1 || (i <= r < |lines| && r > 0 && !KeyLine(lines[r]))
    ensures r != -1 ==> forall k | i <= k < r :: k == 0 || KeyLine(lines[k])
    ensures r == -1 ==> forall k | i <= k < |lines| :: k == 0 || KeyLine(lines[k])
    decreases |lines| - i
  {
    if i == |lines| then -1
    else if i > 0 && !KeyLine(lines[i]) then i
    else FirstNonKeyLine(lines, i + 1)
  }

  /**
   * The last step, as written: lines `0..k` go between `---` delimiters; text
   * already starting with `---` is left alone, and anything wrapped starts
   * with the opening delimiter.
   */
  function Wrap(s: string): (r: string)
    ensures "---" <= s ==> r == s
    ensures r == s || "---\n" <= r
  {
    if "---" <= s then s
    else
      var lines := Split(s);
      var k := FirstNonKeyLine(lines, 0);
      if k > 0 then "---\n" + Join(lines[..k]) + "\n---\n" + Join(lines[k..]) else s
  }

  /** Empty, or ending in a character that is not whitespace. */
  predicate EndsClean(s: string) {
    s == [] || !IsWs(s[|s| - 1])
  }

  /**
   * Every step before the wrap. The carriage returns are gone by now, and
   * the text does not end in whitespace.
   */
  function Prepared(raw: string): (d: string)
    ensures '\r' !in d
    ensures EndsClean(d)
  {
    FencesStrippedHaveNoCr(raw);
    TrimEnd(StripLeadingBlank(StripClosingFence(StripOpeningFence(NormalizeLineEndings(raw)))))
  }

  /**
   * The whole repair, step by step. Whatever the input, the output holds no
   * carriage return and does not end in whitespace.
   */
  function Sanitized(raw: string): (r: string)
    ensures '\r' !in r
    ensures EndsClean(r)
  {
    WrapKeepsShape(Prepared(raw));
    Wrap(Prepared(raw))
  }

  /** The wrap brings in no carriage return and no trailing whitespace. */
  lemma WrapKeepsShape(d: string)
    requires '\r' !in d
    requires EndsClean(d)
    ensures '\r' !in Wrap(d)
    ensures EndsClean(Wrap(d))
  {
    WrapKeepsCharacters(d, '\r');
    WrapKeepsEnd(d);
  }

  /** `sanitizeSkillContent`: reassigns the text once per step, then scans the lines. */
  method SanitizeSkillContent(raw: string) returns (content: string)
    ensures content == Sanitized(raw)
  {
    content := raw;
    content := NormalizeLineEndings(content);
    content := StripOpeningFence(content);
    content := StripClosingFence(content);
    content := StripLeadingBlank(content);
    content := TrimEnd(content);

    if !("---" <= content) {
      var lines := Split(content);
      var yamlEnd := -1;
      var i := 0;
      while i < |lines| && yamlEnd == -1
        invariant 0 <= i <= |lines|
        invariant yamlEnd == -1 ==> FirstNonKeyLine(lines, i) == FirstNonKeyLine(lines, 0)
        invariant yamlEnd != -1 ==> yamlEnd == FirstNonKeyLine(lines, 0)
      {
        if i > 0 && !KeyLine(lines[i]) {
          yamlEnd := i;
        }
        i := i + 1;
      }
      if yamlEnd > 0 {
        var yamlLines := lines[..yamlEnd];
        var rest := lines[yamlEnd..];
        content := "---\n" + Join(yamlLines) + "\n---\n" + Join(rest);
      }
    }
  }

  // ---------------------------------------------------------------------------
  // Properties

  /** When the wrap step fires, its two parts are the text before and after a newline. */
  lemma {:induction false} WrapParts(s: string, k: nat)
    requires 0 < k < |Split(s)|
    ensures Join(Split(s)[..k]) + "\n" + Join(Split(s)[k..]) == s
  {
    JoinSplitAt(Split(s), k);
    JoinSplit(s);
  }

  /** The wrap step adds no character but those of its delimiters. */
  lemma WrapKeepsCharacters(s: string, ch: char)
    requires ch !in s && ch !in "---\n"
    ensures ch !in Wrap(s)
  {
    if !("---" <= s) {
      var lines := Split(s);
      var k := FirstNonKeyLine(lines, 0);
      if k > 0 {
        WrapParts(s, k);
        var a, b := Join(lines[..k]), Join(lines[k..]);
        assert forall i | 0 <= i < |a| :: a[i] == s[i];
        assert forall i | 0 <= i < |b| :: b[i] == s[|a| + 1 + i];
      }
    }
  }

  /** A slice keeps the absence of a character. */
  lemma SliceLacks(s: string, lo: nat, hi: nat, ch: char)
    requires lo <= hi <= |s| && ch !in s
    ensures ch !in s[lo..hi]
  {
  }

  /** A suffix keeps the absence of a character. */
  lemma SuffixLacks(s: string, r: string, ch: char)
    requires |r| <= |s| && r == s[|s| - |r|..] && ch !in s
    ensures ch !in r
  {
    SliceLacks(s, |s| - |r|, |s|, ch);
  }

  /** A prefix keeps the absence of a character. */
  lemma PrefixLacks(s: string, r: string, ch: char)
    requires r <= s && ch !in s
    ensures ch !in r
  {
    SliceLacks(s, 0, |r|, ch);
    assert s[0..|r|] == r;
  }

  /** Every step before the wrap only removes characters, so none brings a carriage return back. */
  lemma FencesStrippedHaveNoCr(raw: string)
    ensures '\r' !in TrimEnd(StripLeadingBlank(StripClosingFence(StripOpeningFence(NormalizeLineEndings(raw)))))
  {
    var n := NormalizeLineEndings(raw);
    var a := StripOpeningFence(n);
    SuffixLacks(n, a, '\r');
    var b := StripClosingFence(a);
    PrefixLacks(a, b, '\r');
    var c := StripLeadingBlank(b);
    SuffixLacks(b, c, '\r');
    PrefixLacks(c, TrimEnd(c), '\r');
  }

  /** The wrap step keeps a text that does not end in whitespace from ending in whitespace. */
  lemma WrapKeepsEnd(s: string)
    requires s == [] || !IsWs(s[|s| - 1])
    ensures Wrap(s) == [] || (s != [] && Wrap(s)[|Wrap(s)| - 1] == s[|s| - 1])
  {
    if !("---" <= s) {
      var lines := Split(s);
      var k := FirstNonKeyLine(lines, 0);
      if k > 0 {
        WrapParts(s, k);
        var a, b := Join(lines[..k]), Join(lines[k..]);
        assert s[|a|] == '\n';
      }
    }
  }

  /** No closing fence matches in a text that does not end in whitespace or in a fence. */
  lemma NoClosingFence(s: string)
    requires s != [] && !IsWs(s[|s| - 1])
    requires !(|s| >= 4 && s[|s| - 4..] == "\n```")
    ensures StripClosingFence(s) == s
  {
    forall i | 0 <= i <= |s| ensures !ClosingFenceAt(s, i) {
      if i + 4 < |s| {
        assert s[i + 4..][|s| - 1 - (i + 4)] == s[|s| - 1];
      }
    }
  }

  /** Blanks are stripped only from a text that starts with them. */
  lemma LeadingDelimiterKept(s: string)
    requires "---" <= s
    ensures StripLeadingBlank(s) == s
  {
    assert SkipWs(s, 0) == 0 by { assert s[0] == '-'; }
    assert s[0..] == s;
  }

  /** A text that does not end in whitespace is its own `trimEnd`. */
  lemma TrimEndOfTrimmed(s: string)
    requires s != [] && !IsWs(s[|s| - 1])
    ensures TrimEnd(s) == s
  {
  }

  /**
   * A document already in shape (starting with `---`, no carriage return, no
   * trailing whitespace, no closing fence at the end) is left as it is.
   */
  lemma SanitizeKeepsCleanDocument(s: string)
    requires "---" <= s && '\r' !in s && !IsWs(s[|s| - 1])
    requires !(|s| >= 4 && s[|s| - 4..] == "\n```")
    ensures Sanitized(s) == s
  {
    assert !("```" <= s) by { assert s[0] == '-'; }
    assert StripOpeningFence(NormalizeLineEndings(s)) == s;
    NoClosingFence(s);
    LeadingDelimiterKept(s);
    TrimEndOfTrimmed(s);
  }

  /** A document in shape, wrapped in a ```` ```markdown ```` fence, comes back without the fence. */
  lemma SanitizeUnwrapsFence(d: string)
    requires "---" <= d && '\r' !in d && !IsWs(d[|d| - 1])
    requires !(|d| >= 4 && d[|d| - 4..] == "\n```")
    ensures Sanitized("```markdown\n" + d + "\n```") == d
  {
    var w := "```markdown\n" + d + "\n```";
    FenceNoCr(d);
    assert NormalizeLineEndings(w) == w;
    assert w == "```" + "markdown" + "\n" + (d + "\n```");
    OpeningFenceStripped("markdown", d + "\n```");
    assert d + "\n```" == d + "\n```" + "";
    ClosingFenceStripped(d, "");
    SanitizeKeepsCleanDocument(d);
    assert !("```" <= d) by { assert d[0] == '-'; }
    NoClosingFence(d);
  }

  lemma FenceNoCr(d: string)
    requires '\r' !in d
    ensures '\r' !in "```markdown\n" + d + "\n```"
  {
  }

  /** Splitting `l0 + "\n" + l1` for one-line `l0` and `l1` gives the two lines. */
  lemma SplitTwoLines(l0: string, l1: string)
    requires '\n' !in l0 && '\n' !in l1
    ensures Split(l0 + "\n" + l1) == [l0, l1]
  {
    SplitFirstLine(l0, l1);
    SplitOneLine(l1);
  }

  /**
   * As written, line 0 is never tested: two lines whose second is not a key
   * line are wrapped with the first line as the whole frontmatter, whatever
   * that first line is.
   */
  lemma WrapTakesFirstLine(l0: string, l1: string)
    requires '\n' !in l0 && '\n' !in l1 && !("---" <= l0) && !KeyLine(l1)
    ensures Wrap(l0 + "\n" + l1) == "---\n" + l0 + "\n---\n" + l1
  {
    var s := l0 + "\n" + l1;
    SplitTwoLines(l0, l1);
    assert !("---" <= s) by {
      if |l0| >= 3 { assert s[..3] == l0[..3]; }
      else { assert s[|l0|] == '\n'; }
    }
    var lines := Split(s);
    assert FirstNonKeyLine(lines, 0) == 1;
    assert lines[..1] == [l0] && lines[1..] == [l1];
  }

  /** A line that starts with `#` is not a key line. */
  lemma HashLineIsNoKeyLine(l: string)
    requires l != [] && l[0] == '#'
    ensures !KeyLine(l)
  {
    assert SkipWs(l, 0) == 0;
  }

  /** A title line followed by a section heading becomes a frontmatter holding the title. */
  lemma WrapTitleCounterexample()
    ensures var title, heading := "# Title", "## Triggers";
      Wrap(title + "\n" + heading) == "---\n" + title + "\n---\n" + heading
  {
    var title, heading := "# Title", "## Triggers";
    HashLineIsNoKeyLine(heading);
    assert title[0] == '#';
    WrapTakesFirstLine(title, heading);
  }

  // ---------------------------------------------------------------------------
  // The wrap step as evidently intended: only a leading run of key lines

  /** The length of the leading run of key lines from `i`. */
  function KeyLinesFrom(lines: seq<string>, i: nat): (k: nat)
    requires i <= |lines|
    ensures i <= k <= |lines|
    ensures forall j | i <= j < k :: KeyLine(lines[j])
    ensures k < |lines| ==> !KeyLine(lines[k])
    decreases |lines| - i
  {
    if i < |lines| && KeyLine(lines[i]) then KeyLinesFrom(lines, i + 1) else i
  }

  /** Wraps the leading key lines, when there are some and a non-key line follows. */
  function WrapIntended(s: string): string {
    if "---" <= s then s
    else
      var lines := Split(s);
      var k := KeyLinesFrom(lines, 0);
      if 0 < k < |lines| then "---\n" + Join(lines[..k]) + "\n---\n" + Join(lines[k..]) else s
  }

  /**
   * The intended wrap puts only key lines between the delimiters, and rejoining
   * the two parts gives the text back.
   */
  lemma WrapIntendedWrapsKeyLines(s: string)
    ensures WrapIntended(s) == s || exists k | 0 < k < |Split(s)| ::
      && (forall j | 0 <= j < k :: KeyLine(Split(s)[j]))
      && WrapIntended(s) == "---\n" + Join(Split(s)[..k]) + "\n---\n" + Join(Split(s)[k..])
      && Join(Split(s)[..k]) + "\n" + Join(Split(s)[k..]) == s
  {
    if !("---" <= s) {
      var k := KeyLinesFrom(Split(s), 0);
      if 0 < k < |Split(s)| {
        WrapParts(s, k);
      }
    }
  }

  /** The intended wrap leaves a text alone whose first line is not a key line. */
  lemma WrapIntendedSkipsNonKeyFirstLine(l0: string, rest: string)
    requires '\n' !in l0 && !KeyLine(l0)
    ensures WrapIntended(l0 + "\n" + rest) == l0 + "\n" + rest
  {
    SplitFirstLine(l0, rest);
  }

  /** On the counterexample above, the intended wrap changes nothing. */
  lemma WrapIntendedTitleUnchanged()
    ensures var title, heading := "# Title", "## Triggers";
      WrapIntended(title + "\n" + heading) == title + "\n" + heading
  {
    var title, heading := "# Title", "## Triggers";
    assert title[0] == '#';
    HashLineIsNoKeyLine(title);
    WrapIntendedSkipsNonKeyFirstLine(title, heading);
  }

  /** The whole repair with the intended last step. */
  function SanitizedIntended(raw: string): string {
    WrapIntended(Prepared(raw))
  }

  /** From line 1 on, the scan as written and the leading run of key lines agree. */
  lemma {:induction false} ScanAgreesFrom(lines: seq<string>, i: nat)
    requires 0 < i <= |lines|
    ensures FirstNonKeyLine(lines, i) == if KeyLinesFrom(lines, i) < |lines| then KeyLinesFrom(lines, i) else -1
    decreases |lines| - i
  {
    if i < |lines| && KeyLine(lines[i]) {
      ScanAgreesFrom(lines, i + 1);
    }
  }

  /** The two wraps differ only on texts whose first line is not a key line. */
  lemma WrapAgreesOnKeyFirstLine(s: string)
    requires KeyLine(Split(s)[0])
    ensures Wrap(s) == WrapIntended(s)
  {
    var lines := Split(s);
    if |lines| > 1 {
      ScanAgreesFrom(lines, 1);
    }
  }

  /** So the repair as written and the corrected one agree whenever the text to wrap starts with a key line. */
  lemma SanitizedAgreesOnKeyFirstLine(raw: string)
    requires KeyLine(Split(Prepared(raw))[0])
    ensures Sanitized(raw) == SanitizedIntended(raw)
  {
    WrapAgreesOnKeyFirstLine(Prepared(raw));
  }
}
