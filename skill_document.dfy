/**
 * The rules shared by the two skill-document validators (src/lib/skillValidator.ts
 * and src/lib/skill-validator.ts): the messages they produce, the regular
 * expressions they match, transcribed by hand, and the validation procedure
 * itself. The two files differ only in the regular expression that finds the
 * `---` frontmatter block; `Dialect` selects it.
 */
module SkillDocument {
  import opened Options
  import opened Text

  // ---------------------------------------------------------------------------
  // Messages and results

  datatype Kind = Error | Warning

  /** What a message is about; `MessageText` renders it as the source does. */
  datatype Issue =
    | EmptyContent
    | TooLarge(bytes: nat)
    | NoFrontmatter
    | NoName
    | NoDescription
    | MissingSection(section: string)
    | NoTitle
    | MissingRecommended(section: string)

  datatype Message = Message(kind: Kind, issue: Issue, line: Option<nat>)

  datatype ValidationResult = ValidationResult(valid: bool, errors: seq<Message>, warnings: seq<Message>)

  /** The human-readable text of each message (the size in megabytes is not rendered). */
  function MessageText(issue: Issue): string {
    match issue
    case EmptyContent => "Skill content is empty"
    case TooLarge(_) => "Content exceeds 5MB limit"
    case NoFrontmatter => "Missing YAML frontmatter (---\\n...\\n---)"
    case NoName => "Frontmatter missing required \"name\" field"
    case NoDescription => "Frontmatter missing recommended \"description\" field"
    case MissingSection(s) => "Missing required section: ## " + s
    case NoTitle => "Missing top-level heading (# Title)"
    case MissingRecommended(s) => "Missing recommended section: ## " + s
  }

  /** How many messages in `ms` are about `issue`. */
  function CountIssue(ms: seq<Message>, issue: Issue): nat {
    if ms == [] then 0
    else CountIssue(ms[..|ms| - 1], issue) + (if ms[|ms| - 1].issue == issue then 1 else 0)
  }

  lemma {:induction false} CountIssueAppend(a: seq<Message>, b: seq<Message>, issue: Issue)
    ensures CountIssue(a + b, issue) == CountIssue(a, issue) + CountIssue(b, issue)
    decreases |b|
  {
    if b != [] {
      assert (a + b)[..|a + b| - 1] == a + b[..|b| - 1];
      CountIssueAppend(a, b[..|b| - 1], issue);
    } else {
      assert a + b == a;
    }
  }

  lemma {:induction false} CountIssueAbsent(ms: seq<Message>, issue: Issue)
    requires forall k | 0 <= k < |ms| :: ms[k].issue != issue
    ensures CountIssue(ms, issue) == 0
    decreases |ms|
  {
    if ms != [] {
      CountIssueAbsent(ms[..|ms| - 1], issue);
    }
  }

  /** Messages that never raise `issue`, then more: only the later ones count. */
  lemma CountAfterClean(head: seq<Message>, tail: seq<Message>, issue: Issue)
    requires forall k | 0 <= k < |head| :: head[k].issue != issue
    ensures CountIssue(head + tail, issue) == CountIssue(tail, issue)
  {
    CountIssueAbsent(head, issue);
    CountIssueAppend(head, tail, issue);
  }

  // ---------------------------------------------------------------------------
  // Size: `new TextEncoder().encode(content).length`

  const MaxSizeBytes: nat := 5 * 1024 * 1024

  function Utf8Width(c: char): nat {
    if c as int < 0x80 then 1
    else if c as int < 0x800 then 2
    else if c as int < 0x10000 then 3
    else 4
  }

  function Utf8Length(s: string): (n: nat)
    ensures |s| <= n <= 4 * |s|
  {
    if s == [] then 0 else Utf8Width(s[0]) + Utf8Length(s[1..])
  }

  // ---------------------------------------------------------------------------
  // Frontmatter: `^---\s*\n([\s\S]*?)\n---\s*(?:\n|$)` (Lenient) and
  // `^---\n([\s\S]*?)\n---` (Strict)

  datatype Dialect = Lenient | Strict

  /** `\s*(?:\n|$)` from `p`: the whitespace after `p` runs to the end or holds a newline. */
  predicate EndsDelimiterLine(c: string, p: nat)
    requires p <= |c|
  {
    var r := SkipWs(c, p);
    r == |c| || '\n' in c[p..r]
  }

  /** A closing delimiter `\n---` (plus, for Lenient, the rest of its line) begins at `e`. */
  predicate CloseAt(d: Dialect, c: string, e: nat) {
    && OccursAt(c, "\n---", e)
    && (d == Lenient ==> EndsDelimiterLine(c, e + 4))
  }

  /** The lazy `[\s\S]*?`: the first closing delimiter at or after `e`. */
  function FirstClose(d: Dialect, c: string, e: nat): (r: Option<nat>)
    requires e <= |c|
    ensures r.Some? ==> e <= r.value < |c| && CloseAt(d, c, r.value)
    ensures r.Some? ==> forall k | e <= k < r.value :: !CloseAt(d, c, k)
    ensures r.None? ==> forall k | e <= k <= |c| :: !CloseAt(d, c, k)
    decreases |c| - e
  {
    if e == |c| then None
    else if CloseAt(d, c, e) then Some(e)
    else FirstClose(d, c, e + 1)
  }

  lemma FirstCloseIs(d: Dialect, c: string, e: nat, e': nat)
    requires e <= e' <= |c| && CloseAt(d, c, e')
    requires forall k | e <= k < e' :: !CloseAt(d, c, k)
    ensures FirstClose(d, c, e) == Some(e')
  {
  }

  /** `^---\n([\s\S]*?)\n---`: the capture group, if the text matches. */
  function StrictFrontmatter(c: string): Option<string> {
    if "---\n" <= c then
      match FirstClose(Strict, c, 4)
      case Some(e) => Some(c[4..e])
      case None => None
    else None
  }

  /**
   * `^---\s*\n([\s\S]*?)\n---\s*(?:\n|$)`. The greedy `\s*` tries the newlines
   * of the whitespace run after `---` from the last one down, and for each the
   * lazy body takes the first closing delimiter after it.
   */
  function LenientFrontmatter(c: string): Option<string> {
    if "---" <= c then LenientOpeners(c, SkipWs(c, 3)) else None
  }

  /** Tries the opening newlines at positions below `top`, highest first. */
  function LenientOpeners(c: string, top: nat): Option<string>
    requires 3 <= top <= |c|
    decreases top
  {
    if top == 3 then None
    else
      var j := top - 1;
      if c[j] == '\n' then
        match FirstClose(Lenient, c, j + 1)
        case Some(e) => Some(c[j + 1..e])
        case None => LenientOpeners(c, j)
      else LenientOpeners(c, j)
  }

  function Frontmatter(d: Dialect, c: string): Option<string> {
    match d
    case Lenient => LenientFrontmatter(c)
    case Strict => StrictFrontmatter(c)
  }

  /**
   * A body without `\n---` in it, followed by `\n---`, holds no closing
   * delimiter: one starting inside the body would need a `-` where the
   * body's trailing newline is.
   */
  lemma NoCloseInside(d: Dialect, c: string, start: nat, h: string)
    requires start + |h| + 4 <= |c| && c[start..start + |h| + 4] == h + "\n---"
    requires !Contains(h, "\n---")
    ensures forall k | start <= k < start + |h| :: !CloseAt(d, c, k)
  {
    var w := h + "\n---";
    forall k | start <= k < start + |h|
      ensures !OccursAt(c, "\n---", k)
    {
      var off := k - start;
      if off + 4 <= |h| {
        assert c[k..k + 4] == c[start..start + |w|][off..off + 4];
        assert w[off..off + 4] == h[off..off + 4];
        assert !OccursAt(h, "\n---", off);
      } else {
        var nl := start + |h|;
        assert c[nl] == w[|h|] == '\n';
        assert k < nl < k + 4 && "\n---"[nl - k] == '-';
      }
    }
  }

  /**
   * Strict: a block opened by exactly `---` and a newline yields the text up
   * to the first `\n---`, whatever follows that delimiter on its line.
   */
  lemma StrictFrontmatterOf(h: string, t: string)
    requires !Contains(h, "\n---")
    ensures StrictFrontmatter("---\n" + h + "\n---" + t) == Some(h)
  {
    var c := "---\n" + h + "\n---" + t;
    var e := 4 + |h|;
    assert c[4..e + 4] == h + "\n---";
    assert c[4..e] == h;
    NoCloseInside(Strict, c, 4, h);
    assert OccursAt(c, "\n---", e) by { assert c[e..e + 4] == (h + "\n---")[|h|..]; }
    FirstCloseIs(Strict, c, 4, e);
  }

  /** A body free of `\n---`, then `\n---`, blanks and a newline: the lenient close is right after the body. */
  lemma LenientCloseAfter(c: string, b: nat, h: string, pad2: string)
    requires AllWs(pad2) && !Contains(h, "\n---")
    requires b + |h| + 4 + |pad2| < |c| && c[b..b + |h| + 4 + |pad2| + 1] == h + ("\n---" + pad2 + "\n")
    ensures FirstClose(Lenient, c, b) == Some(b + |h|)
  {
    var e := b + |h|;
    CloseLineSlices(c, b, h, pad2);
    NoCloseInside(Lenient, c, b, h);
    BlanksEndDelimiterLine(c, e + 4, pad2);
    FirstCloseIs(Lenient, c, b, e);
  }

  /** The pieces of a body, its closing `\n---`, blanks and newline, read back from the text. */
  lemma CloseLineSlices(c: string, b: nat, h: string, pad2: string)
    requires b + |h| + 4 + |pad2| < |c| && c[b..b + |h| + 4 + |pad2| + 1] == h + ("\n---" + pad2 + "\n")
    ensures c[b..b + |h| + 4] == h + "\n---"
    ensures c[b + |h|..b + |h| + 4] == "\n---"
    ensures c[b + |h| + 4..b + |h| + 4 + |pad2| + 1] == pad2 + "\n"
  {
    var e := b + |h|;
    var w := h + ("\n---" + pad2 + "\n");
    assert c[b..e + 4] == w[..|h| + 4] == h + "\n---";
    assert c[e..e + 4] == w[|h|..|h| + 4] == "\n---";
    assert c[e + 4..e + 4 + |pad2| + 1] == w[|h| + 4..] == pad2 + "\n";
  }

  /**
   * Lenient: blanks may follow either `---` delimiter, and the block is still
   * found, provided the body starts with a non-blank character.
   */
  lemma LenientFrontmatterOf(pad1: string, h: string, pad2: string, t: string)
    requires AllWs(pad1) && AllWs(pad2)
    requires h != [] && !IsWs(h[0]) && !Contains(h, "\n---")
    ensures LenientFrontmatter("---" + pad1 + "\n" + h + "\n---" + pad2 + "\n" + t) == Some(h)
  {
    var w := h + ("\n---" + pad2 + "\n");
    var p := "---" + pad1 + "\n";
    var c := p + h + "\n---" + pad2 + "\n" + t;
    Assoc(p, h, "\n---");
    Assoc(p, h + "\n---", pad2);
    Assoc(p, h + "\n---" + pad2, "\n");
    Assoc(h, "\n---", pad2);
    Assoc(h, "\n---" + pad2, "\n");
    assert c == p + w + t;
    LenientOpenerRun(p, pad1, w + t);
    assert (p + w + t)[|p|..|p| + |w|] == w;
    LenientBody(c, |p|, h, pad2);
  }

  /** The opener `---`, blanks and a newline: the greedy run after `---` ends just after that newline. */
  lemma LenientOpenerRun(p: string, pad1: string, r: string)
    requires p == "---" + pad1 + "\n" && AllWs(pad1) && r != [] && !IsWs(r[0])
    ensures "---" <= p + r && 4 <= |p| && (p + r)[|p| - 1] == '\n' && SkipWs(p + r, 3) == |p|
  {
    var c := p + r;
    assert c[..3] == "---";
    forall k | 3 <= k < |p| ensures IsWs(c[k]) {
      if k < |p| - 1 { assert c[k] == pad1[k - 3]; }
    }
    assert c[|p|] == r[0];
    SkipWsCovers(c, 3, |p|);
  }

  /** After the opener, a body free of `\n---` and its closing line: the capture is the body. */
  lemma LenientBody(c: string, b: nat, h: string, pad2: string)
    requires "---" <= c && 4 <= b <= |c| && c[b - 1] == '\n' && SkipWs(c, 3) == b
    requires AllWs(pad2) && !Contains(h, "\n---")
    requires b + |h| + 4 + |pad2| < |c| && c[b..b + |h| + 4 + |pad2| + 1] == h + ("\n---" + pad2 + "\n")
    ensures LenientFrontmatter(c) == Some(h)
  {
    LenientCloseAfter(c, b, h, pad2);
    LenientCapture(c, b, h, "\n---" + pad2 + "\n");
  }

  /** After the opener, a body and the lenient close right after it: the capture is the body. */
  lemma LenientCapture(c: string, b: nat, h: string, r: string)
    requires "---" <= c && 4 <= b <= |c| && c[b - 1] == '\n' && SkipWs(c, 3) == b
    requires b + |h + r| <= |c| && c[b..b + |h + r|] == h + r
    requires FirstClose(Lenient, c, b) == Some(b + |h|)
    ensures LenientFrontmatter(c) == Some(h)
  {
    LenientOpenerAt(c, b, b + |h|);
    SliceOfPrefix(c, b, h, r);
  }

  lemma SliceOfPrefix(c: string, b: nat, h: string, r: string)
    requires b + |h + r| <= |c| && c[b..b + |h + r|] == h + r
    ensures c[b..b + |h|] == h
  {
    assert c[b..b + |h|] == c[b..b + |h + r|][..|h|];
  }

  /** The opener run ends at `b` after a newline, and the lazy body closes at `e`: the capture is `c[b..e]`. */
  lemma LenientOpenerAt(c: string, b: nat, e: nat)
    requires 4 <= b <= |c| && "---" <= c && c[b - 1] == '\n' && SkipWs(c, 3) == b
    requires FirstClose(Lenient, c, b) == Some(e)
    ensures LenientFrontmatter(c) == Some(c[b..e])
  {
  }

  /** Blanks and then a newline after a delimiter satisfy `\s*(?:\n|$)`. */
  lemma BlanksEndDelimiterLine(c: string, p: nat, pad: string)
    requires AllWs(pad) && p + |pad| < |c| && c[p..p + |pad| + 1] == pad + "\n"
    ensures EndsDelimiterLine(c, p)
  {
    var nl := p + |pad|;
    forall k | p <= k <= nl ensures IsWs(c[k]) {
      assert c[k] == (pad + "\n")[k - p];
    }
    assert c[nl] == (pad + "\n")[|pad|] == '\n';
    SkipWsCovers(c, p, nl + 1);
    assert c[p..SkipWs(c, p)][nl - p] == '\n';
  }

  /**
   * The two dialects part ways on a blank after the opening `---`: the lenient
   * match still finds the block, the strict one finds none.
   */
  lemma DialectsDifferOnPaddedOpener(h: string, t: string)
    requires h != [] && !IsWs(h[0]) && !Contains(h, "\n---")
    ensures LenientFrontmatter("--- \n" + h + "\n---\n" + t) == Some(h)
    ensures StrictFrontmatter("--- \n" + h + "\n---\n" + t) == None
  {
    PaddedOpenerText(h, t);
    LenientFrontmatterOf(" ", h, "", t);
    assert ("--- \n" + h + "\n---\n" + t)[3] == ' ';
  }

  lemma PaddedOpenerText(h: string, t: string)
    ensures "---" + " " + "\n" + h + "\n---" + "" + "\n" + t == "--- \n" + h + "\n---\n" + t
  {
    assert "---" + " " + "\n" == "--- \n";
    assert "\n---" + "" + "\n" == "\n---\n";
    Assoc("--- \n" + h, "\n---", "\n");
    Assoc("--- \n" + h + "\n---", "", "\n");
  }

  // ---------------------------------------------------------------------------
  // Headings: `^##\s+<name>` and `^#\s+[^#]` under the `m` flag

  /** `##\s+<name>` at `i`, for a name that starts with a non-whitespace character. */
  predicate HeadingAt(c: string, i: nat, name: string) {
    && i + 3 <= |c| && c[i] == '#' && c[i + 1] == '#' && IsWs(c[i + 2])
    && name <= c[SkipWs(c, i + 2)..]
  }

  predicate HasSection(c: string, name: string) {
    exists i | 0 <= i < |c| :: LineStart(c, i) && HeadingAt(c, i, name)
  }

  /** `#\s+[^#]` at `i`: after the first whitespace character, `[^#]` can only be the next one. */
  predicate TitleAt(c: string, i: nat) {
    i + 2 < |c| && c[i] == '#' && IsWs(c[i + 1]) && c[i + 2] != '#'
  }

  predicate HasTitle(c: string) {
    exists i | 0 <= i < |c| :: LineStart(c, i) && TitleAt(c, i)
  }

  /** `HeadingAt` is the regular expression's meaning: some run of one or more blanks, then the name. */
  lemma HeadingAtIsPattern(c: string, i: nat, name: string)
    requires name != [] && !IsWs(name[0])
    ensures HeadingAt(c, i, name) <==>
      && i + 2 <= |c| && c[i] == '#' && c[i + 1] == '#'
      && exists k | i + 2 < k <= |c| :: AllWs(c[i + 2..k]) && name <= c[k..]
  {
    if i + 2 <= |c| && c[i] == '#' && c[i + 1] == '#' {
      if HeadingAt(c, i, name) {
        var k := SkipWs(c, i + 2);
        assert AllWs(c[i + 2..k]);
      }
      if k :| i + 2 < k <= |c| && AllWs(c[i + 2..k]) && name <= c[k..] {
        assert IsWs(c[i + 2]) by { assert c[i + 2..k][0] == c[i + 2]; }
        forall t | i + 2 <= t < k ensures IsWs(c[t]) {
          assert c[i + 2..k][t - (i + 2)] == c[t];
        }
        assert c[k] == name[0];
        var j := SkipWs(c, i + 2);
        assert j == k;
      }
    }
  }

  /** `TitleAt` is the regular expression's meaning: blanks, then any character but `#`. */
  lemma TitleAtIsPattern(c: string, i: nat)
    ensures TitleAt(c, i) <==>
      && i < |c| && c[i] == '#'
      && exists k | i + 1 < k < |c| :: AllWs(c[i + 1..k]) && c[k] != '#'
  {
    if i < |c| && c[i] == '#' {
      if TitleAt(c, i) {
        assert AllWs(c[i + 1..i + 2]);
      }
      if k :| i + 1 < k < |c| && AllWs(c[i + 1..k]) && c[k] != '#' {
        assert c[i + 1..k][0] == c[i + 1];
        if k > i + 2 {
          assert c[i + 1..k][1] == c[i + 2];
        }
      }
    }
  }

  // ---------------------------------------------------------------------------
  // The validation procedure

  const RequiredSections: seq<string> := ["Triggers", "Usage"]
  const RecommendedSections: seq<string> := ["Examples", "Boundaries", "Behavioral Flow"]

  /** The message for a missing section: an error for a required one, a warning otherwise. */
  function SectionMessage(kind: Kind, section: string): Message {
    match kind
    case Error => Message(Error, MissingSection(section), None)
    case Warning => Message(Warning, MissingRecommended(section), None)
  }

  /** One message per section of `sections`, in order, that the text lacks. */
  function SectionMessages(c: string, sections: seq<string>, kind: Kind): seq<Message>
    decreases |sections|
  {
    if sections == [] then []
    else
      var last := sections[|sections| - 1];
      SectionMessages(c, sections[..|sections| - 1], kind)
        + (if HasSection(c, last) then [] else [SectionMessage(kind, last)])
  }

  function SizeErrors(c: string): seq<Message> {
    var n := Utf8Length(c);
    if n > MaxSizeBytes then [Message(Error, TooLarge(n), None)] else []
  }

  function FrontmatterErrors(fm: Option<string>): seq<Message> {
    match fm
    case None => [Message(Error, NoFrontmatter, Some(1))]
    case Some(h) => if Contains(h, "name:") then [] else [Message(Error, NoName, Some(2))]
  }

  function FrontmatterWarnings(fm: Option<string>): seq<Message> {
    match fm
    case None => []
    case Some(h) => if Contains(h, "description:") then [] else [Message(Warning, NoDescription, Some(2))]
  }

  function TitleWarnings(c: string): seq<Message> {
    if HasTitle(c) then [] else [Message(Warning, NoTitle, None)]
  }

  /** What validation returns for text `c` whose frontmatter match is `fm`. */
  function Evaluate(c: string, fm: Option<string>): ValidationResult {
    if AllWs(c) then ValidationResult(false, [Message(Error, EmptyContent, None)], [])
    else
      var errors := SizeErrors(c) + FrontmatterErrors(fm) + SectionMessages(c, RequiredSections, Error);
      var warnings := FrontmatterWarnings(fm) + TitleWarnings(c) + SectionMessages(c, RecommendedSections, Warning);
      ValidationResult(|errors| == 0, errors, warnings)
  }

  /**
   * `validateSkillContent` as a value: valid exactly when there is no error,
   * and blank text gets the single empty-content error.
   */
  function Validation(d: Dialect, c: string): (r: ValidationResult)
    ensures r.valid <==> r.errors == []
    ensures AllWs(c) ==> r == ValidationResult(false, [Message(Error, EmptyContent, None)], [])
  {
    Evaluate(c, Frontmatter(d, c))
  }

  /**
   * `validateSkillContent`, shared by both files: messages are pushed in the
   * order the checks run, and each check runs whatever the earlier ones found.
   */
  method ValidateSkillContent(d: Dialect, content: string) returns (r: ValidationResult)
    ensures r == Validation(d, content)
  {
    if Trim(content) == [] {
      return ValidationResult(false, [Message(Error, EmptyContent, None)], []);
    }

    var sizeErrors := CheckSize(content);
    var frontmatterErrors, frontmatterWarnings := CheckFrontmatter(Frontmatter(d, content));
    var errors := PushSectionMessages(content, RequiredSections, Error, sizeErrors + frontmatterErrors);

    var titleWarnings := if HasTitle(content) then [] else [Message(Warning, NoTitle, None)];
    var warnings := PushSectionMessages(content, RecommendedSections, Warning, frontmatterWarnings + titleWarnings);

    r := ValidationResult(|errors| == 0, errors, warnings);
  }

  /** The size check: `TextEncoder` byte length against the 5 MiB limit. */
  method CheckSize(content: string) returns (errors: seq<Message>)
    ensures errors == SizeErrors(content)
  {
    errors := [];
    var sizeBytes := Utf8Length(content);
    if sizeBytes > MaxSizeBytes {
      errors := [Message(Error, TooLarge(sizeBytes), None)];
    }
  }

  /** The frontmatter checks: no match, else a missing `name:` (error) and `description:` (warning). */
  method CheckFrontmatter(frontmatterMatch: Option<string>) returns (errors: seq<Message>, warnings: seq<Message>)
    ensures errors == FrontmatterErrors(frontmatterMatch)
    ensures warnings == FrontmatterWarnings(frontmatterMatch)
  {
    errors, warnings := [], [];
    if frontmatterMatch.None? {
      errors := [Message(Error, NoFrontmatter, Some(1))];
    } else {
      var frontmatter := frontmatterMatch.value;
      if !Contains(frontmatter, "name:") {
        errors := [Message(Error, NoName, Some(2))];
      }
      if !Contains(frontmatter, "description:") {
        warnings := [Message(Warning, NoDescription, Some(2))];
      }
    }
  }

  /** The `for (const section of sections)` loops: one message per missing section, in order. */
  method PushSectionMessages(content: string, sections: seq<string>, kind: Kind, acc: seq<Message>)
    returns (r: seq<Message>)
    ensures r == acc + SectionMessages(content, sections, kind)
  {
    r := acc;
    var i := 0;
    while i < |sections|
      invariant 0 <= i <= |sections|
      invariant r == acc + SectionMessages(content, sections[..i], kind)
    {
      var section := sections[i];
      assert sections[..i + 1][..i] == sections[..i];
      if !HasSection(content, section) {
        r := r + [SectionMessage(kind, section)];
      }
      i := i + 1;
    }
    assert sections[..i] == sections;
  }

  // ---------------------------------------------------------------------------
  // Properties of the validation procedure

  lemma {:induction false} SectionMessagesLength(c: string, sections: seq<string>, kind: Kind)
    ensures |SectionMessages(c, sections, kind)| <= |sections|
    decreases |sections|
  {
    if sections != [] {
      SectionMessagesLength(c, sections[..|sections| - 1], kind);
    }
  }

  /** With no section named twice, a section's message appears once if it is missing and never otherwise. */
  lemma {:induction false} SectionMessagesCount(c: string, sections: seq<string>, kind: Kind, s: string)
    requires forall a, b | 0 <= a < b < |sections| :: sections[a] != sections[b]
    ensures CountIssue(SectionMessages(c, sections, kind), SectionMessage(kind, s).issue)
            == if s in sections && !HasSection(c, s) then 1 else 0
    decreases |sections|
  {
    if sections != [] {
      var init, last := sections[..|sections| - 1], sections[|sections| - 1];
      SectionMessagesCount(c, init, kind, s);
      var tail := if HasSection(c, last) then [] else [SectionMessage(kind, last)];
      CountIssueAppend(SectionMessages(c, init, kind), tail, SectionMessage(kind, s).issue);
      assert tail != [] ==> tail[..0] == [];
      assert s in sections <==> s in init || s == last by {
        assert sections == init + [last];
      }
      if s == last {
        assert s !in init;
      }
    }
  }

  /** An empty message list is exactly the case where every listed section is present. */
  lemma {:induction false} SectionMessagesEmpty(c: string, sections: seq<string>, kind: Kind)
    ensures SectionMessages(c, sections, kind) == [] <==> forall k | 0 <= k < |sections| :: HasSection(c, sections[k])
    decreases |sections|
  {
    if sections != [] {
      var init := sections[..|sections| - 1];
      SectionMessagesEmpty(c, init, kind);
      assert forall k | 0 <= k < |init| :: init[k] == sections[k];
    }
  }

  /** `valid` holds exactly when there are no errors; warnings play no part. */
  lemma ValidIffNoErrors(c: string, fm: Option<string>)
    ensures Evaluate(c, fm).valid <==> Evaluate(c, fm).errors == []
  {
  }

  /** Empty or whitespace-only text: one error, no warnings, nothing else checked. */
  lemma BlankContent(c: string, fm: Option<string>)
    requires AllWs(c)
    ensures Evaluate(c, fm) == ValidationResult(false, [Message(Error, EmptyContent, None)], [])
  {
  }

  /**
   * Validity in terms of the text alone: non-blank, within 5 MiB, a frontmatter
   * holding `name:`, and both required sections. Nothing a warning reports matters.
   */
  lemma ValidExactly(c: string, fm: Option<string>)
    ensures Evaluate(c, fm).valid <==>
      && !AllWs(c)
      && Utf8Length(c) <= MaxSizeBytes
      && fm.Some? && Contains(fm.value, "name:")
      && HasSection(c, "Triggers") && HasSection(c, "Usage")
  {
    SectionMessagesEmpty(c, RequiredSections, Error);
  }

  /** At most four errors and five warnings ("no frontmatter" and "no name" exclude each other). */
  lemma MessageBounds(c: string, fm: Option<string>)
    ensures |Evaluate(c, fm).errors| <= 4
    ensures |Evaluate(c, fm).warnings| <= 5
  {
    SectionMessagesLength(c, RequiredSections, Error);
    SectionMessagesLength(c, RecommendedSections, Warning);
  }

  /** Each required section has its own error: present exactly once when the heading is missing. */
  lemma RequiredSectionIndependent(c: string, fm: Option<string>, s: string)
    requires !AllWs(c) && s in RequiredSections
    ensures CountIssue(Evaluate(c, fm).errors, MissingSection(s)) == if HasSection(c, s) then 0 else 1
  {
    var issue := MissingSection(s);
    var head := SizeErrors(c) + FrontmatterErrors(fm);
    var tail := SectionMessages(c, RequiredSections, Error);
    assert Evaluate(c, fm).errors == head + tail;
    assert forall k | 0 <= k < |head| :: head[k].issue != issue;
    CountAfterClean(head, tail, issue);
    RequiredTailCount(c, s);
  }

  lemma RequiredTailCount(c: string, s: string)
    requires s in RequiredSections
    ensures CountIssue(SectionMessages(c, RequiredSections, Error), MissingSection(s)) == if HasSection(c, s) then 0 else 1
  {
    SectionMessagesCount(c, RequiredSections, Error, s);
  }

  /** Each recommended section has its own warning: present exactly once when the heading is missing. */
  lemma RecommendedSectionIndependent(c: string, fm: Option<string>, s: string)
    requires !AllWs(c) && s in RecommendedSections
    ensures CountIssue(Evaluate(c, fm).warnings, MissingRecommended(s)) == if HasSection(c, s) then 0 else 1
  {
    var issue := MissingRecommended(s);
    var head := FrontmatterWarnings(fm) + TitleWarnings(c);
    var tail := SectionMessages(c, RecommendedSections, Warning);
    assert Evaluate(c, fm).warnings == head + tail;
    assert forall k | 0 <= k < |head| :: head[k].issue != issue;
    CountAfterClean(head, tail, issue);
    RecommendedTailCount(c, s);
  }

  lemma RecommendedTailCount(c: string, s: string)
    requires s in RecommendedSections
    ensures CountIssue(SectionMessages(c, RecommendedSections, Warning), MissingRecommended(s)) == if HasSection(c, s) then 0 else 1
  {
    SectionMessagesCount(c, RecommendedSections, Warning, s);
  }

  lemma {:induction false} SectionMessagesIssues(c: string, sections: seq<string>, kind: Kind)
    ensures forall m | m in SectionMessages(c, sections, kind) ::
      && m.kind == kind
      && (kind == Error ==> m.issue.MissingSection?)
      && (kind == Warning ==> m.issue.MissingRecommended?)
    decreases |sections|
  {
    if sections != [] {
      SectionMessagesIssues(c, sections[..|sections| - 1], kind);
    }
  }

  /** The issues that make a document invalid; every other issue is only ever a warning. */
  predicate IsErrorIssue(issue: Issue) {
    issue.EmptyContent? || issue.TooLarge? || issue.NoFrontmatter? || issue.NoName? || issue.MissingSection?
  }

  /** Every error is one of the issues that make a document invalid. */
  lemma ErrorKinds(c: string, fm: Option<string>)
    ensures forall m | m in Evaluate(c, fm).errors :: m.kind == Error && IsErrorIssue(m.issue)
  {
    if !AllWs(c) {
      var se, fe := SizeErrors(c), FrontmatterErrors(fm);
      var re := SectionMessages(c, RequiredSections, Error);
      SectionMessagesIssues(c, RequiredSections, Error);
      assert Evaluate(c, fm).errors == se + fe + re;
      forall m: Message | m in se + fe + re ensures m.kind == Error && IsErrorIssue(m.issue) {
        assert m in se || m in fe || m in re;
      }
    }
  }

  /**
   * A missing description, title or recommended section is only ever a
   * warning, so it never costs validity.
   */
  lemma WarningKinds(c: string, fm: Option<string>)
    ensures forall m | m in Evaluate(c, fm).warnings :: m.kind == Warning && !IsErrorIssue(m.issue)
  {
    if !AllWs(c) {
      var fw, tw := FrontmatterWarnings(fm), TitleWarnings(c);
      var rw := SectionMessages(c, RecommendedSections, Warning);
      SectionMessagesIssues(c, RecommendedSections, Warning);
      assert Evaluate(c, fm).warnings == fw + tw + rw;
      forall m: Message | m in fw + tw + rw ensures m.kind == Warning && !IsErrorIssue(m.issue) {
        assert m in fw || m in tw || m in rw;
      }
    }
  }

  /**
   * Frontmatter messages: no match is an error at line 1 (and then no name is
   * reported), a missing name an error at line 2, a missing description a
   * warning at line 2.
   */
  lemma FrontmatterMessages(c: string, fm: Option<string>)
    requires !AllWs(c)
    ensures fm.None? ==> Message(Error, NoFrontmatter, Some(1)) in Evaluate(c, fm).errors
    ensures fm.None? ==> Message(Error, NoName, Some(2)) !in Evaluate(c, fm).errors
    ensures fm.Some? && !Contains(fm.value, "name:") ==> Message(Error, NoName, Some(2)) in Evaluate(c, fm).errors
    ensures fm.Some? && !Contains(fm.value, "description:") ==>
      Message(Warning, NoDescription, Some(2)) in Evaluate(c, fm).warnings
  {
    var ev := Evaluate(c, fm);
    var fe := FrontmatterErrors(fm);
    var re := SectionMessages(c, RequiredSections, Error);
    assert ev.errors == SizeErrors(c) + fe + re;
    if fm.None? {
      assert ev.errors[|SizeErrors(c)|] == Message(Error, NoFrontmatter, Some(1));
      SectionMessagesIssues(c, RequiredSections, Error);
      assert forall m | m in ev.errors :: m in SizeErrors(c) || m in fe || m in re;
    } else if !Contains(fm.value, "name:") {
      assert ev.errors[|SizeErrors(c)|] == Message(Error, NoName, Some(2));
    }
    var fw := FrontmatterWarnings(fm);
    assert ev.warnings == fw + TitleWarnings(c) + SectionMessages(c, RecommendedSections, Warning);
    if fw != [] {
      assert ev.warnings[0] == fw[0];
    }
  }

  /** The title warning is reported exactly when no line starts with `#`, a blank and a non-`#`. */
  lemma TitleWarning(c: string, fm: Option<string>)
    requires !AllWs(c)
    ensures Message(Warning, NoTitle, None) in Evaluate(c, fm).warnings <==> !HasTitle(c)
  {
    var fw, tw, rw := FrontmatterWarnings(fm), TitleWarnings(c), SectionMessages(c, RecommendedSections, Warning);
    assert Evaluate(c, fm).warnings == fw + tw + rw;
    SectionMessagesIssues(c, RecommendedSections, Warning);
    if !HasTitle(c) {
      assert Evaluate(c, fm).warnings[|fw|] == Message(Warning, NoTitle, None);
    }
  }

  // ---------------------------------------------------------------------------
  // Metadata capture: `name:\s*(.+)`, `description:\s*"?([^"]+)"?` and
  // `description:\s*"?([^"\n]+)"?`

  /** The three capture patterns: the key, then `\s*`, then the captured run. */
  datatype Pattern = NamePattern | DescriptionPattern(stopAtNewline: bool)

  function Key(p: Pattern): string {
    match p
    case NamePattern => "name:"
    case DescriptionPattern(_) => "description:"
  }

  /** The characters the captured run (`.+`, `[^"]+` or `[^"\n]+`) cannot contain. */
  predicate Stops(p: Pattern, ch: char) {
    match p
    case NamePattern => IsLineTerminator(ch)
    case DescriptionPattern(nl) => ch == '"' || (nl && ch == '\n')
  }

  /** The greedy run of non-stop characters from `q`. */
  function RunEnd(p: Pattern, s: string, q: nat): (e: nat)
    requires q <= |s|
    ensures q <= e <= |s|
    ensures forall k | q <= k < e :: !Stops(p, s[k])
    ensures e < |s| ==> Stops(p, s[e])
    decreases |s| - q
  {
    if q < |s| && !Stops(p, s[q]) then RunEnd(p, s, q + 1) else q
  }

  function Capture(p: Pattern, s: string, q: nat): (r: string)
    requires q <= |s|
    ensures forall k | 0 <= k < |r| :: !Stops(p, r[k])
  {
    s[q..RunEnd(p, s, q)]
  }

  /** The last position in `[lo, hi)` whose character may begin a run. */
  function LastNonStop(p: Pattern, s: string, lo: nat, hi: nat): (r: Option<nat>)
    requires lo <= hi <= |s|
    ensures r.Some? ==> lo <= r.value < hi && !Stops(p, s[r.value])
    ensures r.None? ==> forall k | lo <= k < hi :: Stops(p, s[k])
    decreases hi - lo
  {
    if hi == lo then None
    else if !Stops(p, s[hi - 1]) then Some(hi - 1)
    else LastNonStop(p, s, lo, hi - 1)
  }

  /**
   * The capture of the pattern anchored at `i`, with JavaScript's backtracking:
   * `\s*` first takes the whole whitespace run; for a description an opening
   * quote there is taken when a run can follow it; otherwise the run starts
   * where the whitespace ends; failing that, `\s*` gives back characters and
   * the run starts at the last whitespace character that may begin one.
   */
  function MatchAt(p: Pattern, s: string, i: nat): (r: Option<string>)
    requires i <= |s|
    ensures r.Some? ==> forall k | 0 <= k < |r.value| :: !Stops(p, r.value[k])
  {
    if !(Key(p) <= s[i..]) then None
    else
      var start := i + |Key(p)|;
      var r := SkipWs(s, start);
      if p.DescriptionPattern? && r + 1 < |s| && s[r] == '"' && !Stops(p, s[r + 1]) then
        Some(Capture(p, s, r + 1))
      else if r < |s| && !Stops(p, s[r]) then
        Some(Capture(p, s, r))
      else
        match LastNonStop(p, s, start, r)
        case Some(q) => Some(Capture(p, s, q))
        case None => None
  }

  /** `String.prototype.match` without `g`: the leftmost position where the pattern matches. */
  function Search(p: Pattern, s: string, i: nat): (r: Option<string>)
    requires i <= |s|
    decreases |s| - i
  {
    if MatchAt(p, s, i).Some? then MatchAt(p, s, i)
    else if i == |s| then None
    else Search(p, s, i + 1)
  }

  /** When `Search` finds nothing, no position from `i` on matches. */
  lemma {:induction false} SearchNoneAll(p: Pattern, s: string, i: nat, j: nat)
    requires i <= j <= |s| && Search(p, s, i).None?
    ensures MatchAt(p, s, j).None?
    decreases j - i
  {
    if i < j {
      SearchNoneAll(p, s, i + 1, j);
    }
  }

  /** When no position from `i` on matches, `Search` finds nothing. */
  lemma {:induction false} SearchNoneOfAll(p: Pattern, s: string, i: nat)
    requires i <= |s| && forall j | i <= j <= |s| :: MatchAt(p, s, j).None?
    ensures Search(p, s, i).None?
    decreases |s| - i
  {
    if i < |s| {
      SearchNoneOfAll(p, s, i + 1);
    }
  }

  /** A capture `Search` finds holds no character that stops the run. */
  lemma {:induction false} SearchHasNoStop(p: Pattern, s: string, i: nat)
    requires i <= |s| && Search(p, s, i).Some?
    ensures forall k | 0 <= k < |Search(p, s, i).value| :: !Stops(p, Search(p, s, i).value[k])
    decreases |s| - i
  {
    if MatchAt(p, s, i).None? && i < |s| {
      SearchHasNoStop(p, s, i + 1);
    }
  }

  /** What `Search` returns is the match at some position from `i` on. */
  lemma {:induction false} SearchFindsMatch(p: Pattern, s: string, i: nat)
    requires i <= |s| && Search(p, s, i).Some?
    ensures exists j | i <= j <= |s| :: MatchAt(p, s, j) == Search(p, s, i)
    decreases |s| - i
  {
    if MatchAt(p, s, i).None? && i < |s| {
      SearchFindsMatch(p, s, i + 1);
    }
  }

  lemma {:induction false} SearchIsLeftmost(p: Pattern, s: string, i: nat, j: nat)
    requires i <= j <= |s| && MatchAt(p, s, j).Some?
    requires forall k | i <= k < j :: MatchAt(p, s, k).None?
    ensures Search(p, s, i) == MatchAt(p, s, j)
    decreases j - i
  {
    if i < j {
      SearchIsLeftmost(p, s, i + 1, j);
    }
  }

  /** `match?.[1]?.trim() || fallback`. */
  function FieldOr(p: Pattern, s: string, fallback: string): (r: string)
    ensures fallback != [] ==> r != []
    ensures r != fallback ==> Search(p, s, 0).Some? && r == Trim(Search(p, s, 0).value)
    ensures Search(p, s, 0).None? ==> r == fallback
    ensures Search(p, s, 0).Some? && Trim(Search(p, s, 0).value) != [] ==> r == Trim(Search(p, s, 0).value)
  {
    match Search(p, s, 0)
    case Some(cap) => var t := Trim(cap); if t == [] then fallback else t
    case None => fallback
  }

  /** Without its key anywhere in the text, a pattern's field is the fallback. */
  lemma FieldOrWithoutKey(p: Pattern, s: string, fallback: string)
    requires !Contains(s, Key(p))
    ensures FieldOr(p, s, fallback) == fallback
  {
    forall j | 0 <= j <= |s| ensures MatchAt(p, s, j).None? {
      MatchAtNeedsKey(p, s, j);
    }
    SearchNoneOfAll(p, s, 0);
  }

  /** The pattern matches only where its key occurs. */
  lemma MatchAtNeedsKey(p: Pattern, s: string, j: nat)
    requires j <= |s|
    ensures MatchAt(p, s, j).Some? ==> OccursAt(s, Key(p), j)
  {
    assert Key(p) <= s[j..] ==> s[j..j + |Key(p)|] == Key(p);
  }

  /** A trimmed capture keeps the capture's character class. */
  lemma FieldOrHasNoStop(p: Pattern, s: string, fallback: string)
    requires forall k | 0 <= k < |fallback| :: !Stops(p, fallback[k])
    ensures forall k | 0 <= k < |FieldOr(p, s, fallback)| :: !Stops(p, FieldOr(p, s, fallback)[k])
  {
    var r := FieldOr(p, s, fallback);
    if r != fallback {
      var cap := Search(p, s, 0).value;
      SearchHasNoStop(p, s, 0);
      var a := SkipWs(cap, 0);
      forall k | 0 <= k < |r| ensures !Stops(p, r[k]) {
        assert r[k] == cap[a + k];
      }
    }
  }

  /** A run of non-stop characters from `q` to a stop character at `e` ends there. */
  lemma {:induction false} RunEndIs(p: Pattern, s: string, q: nat, e: nat)
    requires q <= e < |s| && Stops(p, s[e])
    requires forall k | q <= k < e :: !Stops(p, s[k])
    ensures RunEnd(p, s, q) == e
    decreases e - q
  {
    if q < e {
      RunEndIs(p, s, q + 1, e);
    }
  }

  /**
   * A line `name: <value>` yields that value, when no `n` comes before it (so
   * no earlier `name:` can match).
   */
  lemma NameLine(pre: string, v: string, rest: string, fallback: string)
    requires 'n' !in pre
    requires v != [] && !IsWs(v[0]) && !IsWs(v[|v| - 1])
    requires forall k | 0 <= k < |v| :: !IsLineTerminator(v[k])
    ensures FieldOr(NamePattern, pre + "name: " + v + "\n" + rest, fallback) == v
  {
    var s := pre + "name: " + v + "\n" + rest;
    var b := |pre|;
    forall j | 0 <= j < b ensures MatchAt(NamePattern, s, j).None? {
      assert s[j] == pre[j];
    }
    assert s[b..b + 6] == "name: ";
    assert s[b + 6..b + 6 + |v|] == v;
    assert s[b + 6 + |v|] == '\n';
    NameMatchAt(s, b, v);
    SearchIsLeftmost(NamePattern, s, 0, b);
    TrimOfTrimmed(v);
  }

  /** `name: ` at `b`, then a single-line value ending in a newline: the match at `b` is the value. */
  lemma NameMatchAt(s: string, b: nat, v: string)
    requires b + 6 + |v| < |s| && s[b..b + 6] == "name: "
    requires s[b + 6..b + 6 + |v|] == v && s[b + 6 + |v|] == '\n'
    requires v != [] && !IsWs(v[0])
    requires forall k | 0 <= k < |v| :: !IsLineTerminator(v[k])
    ensures MatchAt(NamePattern, s, b) == Some(v)
  {
    var e := b + 6 + |v|;
    assert s[b..b + 5] == s[b..b + 6][..5] == "name:";
    assert s[b..][..5] == s[b..b + 5];
    assert s[b + 5] == ' ' && s[b + 6] == v[0];
    SkipWsCovers(s, b + 5, b + 6);
    forall k | b + 6 <= k < e ensures !Stops(NamePattern, s[k]) {
      assert s[k] == v[k - b - 6];
    }
    RunEndIs(NamePattern, s, b + 6, e);
  }

  /**
   * A line `description: "<value>"` yields the value without its quotes,
   * whether or not the capture may span lines.
   */
  lemma QuotedDescriptionLine(nl: bool, v: string, rest: string, fallback: string)
    requires v != [] && !IsWs(v[0]) && !IsWs(v[|v| - 1])
    requires forall k | 0 <= k < |v| :: !Stops(DescriptionPattern(nl), v[k])
    ensures FieldOr(DescriptionPattern(nl), "description: \"" + v + "\"" + rest, fallback) == v
  {
    var p := DescriptionPattern(nl);
    var s := "description: \"" + v + "\"" + rest;
    var e := 14 + |v|;
    assert s[..12] == "description:";
    assert s[12] == ' ' && s[13] == '"' && s[14] == v[0] && s[e] == '"';
    SkipWsCovers(s, 12, 13);
    forall k | 14 <= k < e ensures !Stops(p, s[k]) {
      assert s[k] == v[k - 14];
    }
    RunEndIs(p, s, 14, e);
    assert s[14..e] == v;
    assert MatchAt(p, s, 0) == Some(v);
    TrimOfTrimmed(v);
  }

  /**
   * Without quotes, the lenient description runs past the end of its line:
   * every following line up to the first quote is part of it.
   */
  lemma UnquotedDescriptionSpansLines(v: string, w: string)
    requires v != [] && !IsWs(v[0]) && v[0] != '"'
    requires '"' !in v && '"' !in w && w != [] && !IsWs(w[|w| - 1])
    ensures FieldOr(DescriptionPattern(false), "description: " + v + "\n" + w, "") == v + "\n" + w
  {
    var p := DescriptionPattern(false);
    var s := "description: " + v + "\n" + w;
    var r := v + "\n" + w;
    assert s[..12] == "description:";
    assert s[12] == ' ' && s[13] == v[0];
    assert s[13..] == r;
    SkipWsCovers(s, 12, 13);
    forall k | 13 <= k < |s| ensures !Stops(p, s[k]) {
      assert s[k] == r[k - 13];
      assert r[k - 13] in v || r[k - 13] == '\n' || r[k - 13] in w;
    }
    assert RunEnd(p, s, 13) == |s| by {
      RunEndToEnd(p, s, 13);
    }
    assert SkipWs(s, 12) == 13;
    assert s[13..|s|] == r;
    assert Capture(p, s, 13) == r;
    assert MatchAt(p, s, 0) == Some(r);
    assert r[|r| - 1] == w[|w| - 1];
    TrimOfTrimmed(r);
  }

  /** A run with no stop character in it reaches the end of the text. */
  lemma {:induction false} RunEndToEnd(p: Pattern, s: string, q: nat)
    requires q <= |s|
    requires forall k | q <= k < |s| :: !Stops(p, s[k])
    ensures RunEnd(p, s, q) == |s|
    decreases |s| - q
  {
    if q < |s| {
      RunEndToEnd(p, s, q + 1);
    }
  }

  datatype Extracted = Extracted(name: string, description: string)

  /**
   * `extractMetadataFromContent` once the frontmatter has been matched, in both
   * dialects: exact defaults without frontmatter; otherwise a name that is never
   * empty and never spans a line, and a description with no quote in it (it may
   * span lines).
   */
  function ExtractFrom(fm: Option<string>): (r: Extracted)
    ensures fm.None? ==> r == Extracted("untitled-skill", "")
    ensures r.name != ""
    ensures forall k | 0 <= k < |r.name| :: !IsLineTerminator(r.name[k])
    ensures '"' !in r.description
  {
    match fm
    case None => Extracted("untitled-skill", "")
    case Some(h) =>
      FieldOrHasNoStop(NamePattern, h, "untitled-skill");
      FieldOrHasNoStop(DescriptionPattern(false), h, "");
      Extracted(FieldOr(NamePattern, h, "untitled-skill"), FieldOr(DescriptionPattern(false), h, ""))
  }

  /** `extractMetadataFromContent`: the defaults exactly when no frontmatter is found. */
  function Extract(d: Dialect, c: string): (r: Extracted)
    ensures Frontmatter(d, c).None? ==> r == Extracted("untitled-skill", "")
    ensures Frontmatter(d, c).Some? ==> r.name == FieldOr(NamePattern, Frontmatter(d, c).value, "untitled-skill")
    ensures r.name != ""
  {
    ExtractFrom(Frontmatter(d, c))
  }

  /** A text that neither starts nor ends with whitespace is its own trim. */
  lemma TrimOfTrimmed(s: string)
    requires s != [] && !IsWs(s[0]) && !IsWs(s[|s| - 1])
    ensures Trim(s) == s
  {
  }
}
