/**
 * The starter templates (src/lib/skill-templates.ts): a constant catalog of
 * five skill documents and the lookup by id. Each document is given by its
 * outline (header fields, title and the bodies of its five sections), which
 * `Render` lays out line by line exactly as the source text reads; the text
 * is those lines joined with newlines, the last line empty because every
 * document ends with a newline.
 */
module SkillTemplates {
  import opened Options
  import opened Text
  import opened SkillDocument

  datatype SkillTemplate = SkillTemplate(id: string, name: string, description: string, content: string)

  // ---------------------------------------------------------------------------
  // Joined lines

  /** A text of at most `|lines|` lines of at most `w` characters. */
  lemma {:induction false} JoinLength(lines: seq<string>, w: nat)
    requires forall i | 0 <= i < |lines| :: |lines[i]| <= w
    ensures |Join(lines)| <= |lines| * (w + 1)
  {
    if |lines| > 1 {
      JoinLength(lines[1..], w);
    }
  }

  /** A line `## <name>` makes its section present. */
  lemma SectionLine(lines: seq<string>, k: nat, section: string)
    requires 0 < k < |lines| && lines[k] == "## " + section
    requires section != [] && !IsWs(section[0])
    ensures HasSection(Join(lines), section)
  {
    var p := LineOfJoin(lines, k);
    HeadingLineAt(Join(lines), p, section);
  }

  /** `## <name>` right after a newline is a section heading there. */
  lemma HeadingLineAt(c: string, p: nat, section: string)
    requires 0 < p <= |c| && c[p - 1] == '\n' && "## " + section <= c[p..]
    requires section != [] && !IsWs(section[0])
    ensures LineStart(c, p) && HeadingAt(c, p, section)
  {
    var l := "## " + section;
    assert c[p..][..|l|] == l;
    assert c[p] == '#' && c[p + 1] == '#' && c[p + 2] == ' ' && c[p + 3] == section[0];
    SkipWsCovers(c, p + 2, p + 3);
    assert c[p + 3..][..|section|] == section;
  }

  /** A line `# <title>` whose title does not start with `#` is a top-level heading. */
  lemma TitleLine(lines: seq<string>, k: nat, title: string)
    requires 0 < k < |lines| && lines[k] == "# " + title
    requires title != [] && title[0] != '#'
    ensures HasTitle(Join(lines))
  {
    var c := Join(lines);
    var p := LineOfJoin(lines, k);
    assert c[p..][..|lines[k]|] == lines[k];
    assert c[p] == '#' && c[p + 1] == ' ' && c[p + 2] == title[0];
    assert LineStart(c, p) && TitleAt(c, p);
  }

  /** Four joined lines and the rest, regrouped around the second and third lines. */
  lemma Regroup(a: string, b: string, c: string, d: string, r: string)
    ensures (a + "\n") + ((b + "\n") + ((c + "\n") + ((d + "\n") + r)))
      == (((a + "\n") + ((b + "\n") + c)) + ("\n" + d)) + ("\n" + r)
  {
    Assoc(c, "\n", (d + "\n") + r);
    Assoc(d, "\n", r);
    Assoc("\n", d, "\n" + r);
    Assoc(c, "\n" + d, "\n" + r);
    Assoc(b + "\n", c + ("\n" + d), "\n" + r);
    Assoc(b + "\n", c, "\n" + d);
    Assoc(a + "\n", (b + "\n") + (c + ("\n" + d)), "\n" + r);
    Assoc(a + "\n", (b + "\n") + c, "\n" + d);
  }

  /** Lines `---`, `a`, `b`, `---`, rest: the text is `---\n` + `a\nb` + `\n---` + the rest. */
  lemma HeaderLines(lines: seq<string>)
    requires |lines| > 4 && lines[0] == "---" && lines[3] == "---"
    ensures Join(lines) == "---\n" + (lines[1] + "\n" + lines[2]) + "\n---" + ("\n" + Join(lines[4..]))
  {
    var rest := Join(lines[4..]);
    assert lines[3..][1..] == lines[4..];
    var j3 := (lines[3] + "\n") + rest;
    assert Join(lines[3..]) == j3;
    assert lines[2..][1..] == lines[3..];
    var j2 := (lines[2] + "\n") + j3;
    assert Join(lines[2..]) == j2;
    assert lines[1..][1..] == lines[2..];
    var j1 := (lines[1] + "\n") + j2;
    assert Join(lines[1..]) == j1;
    assert Join(lines) == (lines[0] + "\n") + j1;
    Regroup("---", lines[1], lines[2], "---", rest);
    assert "---" + "\n" == "---\n" && "\n" + "---" == "\n---";
  }

  // ---------------------------------------------------------------------------
  // The header block

  /** The header of a template: the delimiters around the name and quoted description lines. */
  predicate Header(lines: seq<string>, name: string, description: string) {
    && |lines| > 4 && lines[0] == "---" && lines[3] == "---"
    && lines[1] == "name: " + name && '\n' !in name
    && lines[2] == "description: \"" + description + "\""
  }

  /** The first closing delimiter at or after `s` exists and lies in `[lo, e]` when one is at `e` and none below `lo`. */
  lemma FirstCloseBetween(d: Dialect, c: string, s: nat, lo: nat, e: nat)
    requires s <= lo <= e < |c| && CloseAt(d, c, e)
    requires forall k | s <= k < lo :: !CloseAt(d, c, k)
    ensures FirstClose(d, c, s).Some? && lo <= FirstClose(d, c, s).value <= e
  {
  }

  /**
   * No closing delimiter starts before the end of `description: "`: the name
   * line holds no newline, and the newline after it is followed by `d`.
   */
  lemma NoCloseBeforeDescription(lines: seq<string>, name: string, description: string, d: Dialect)
    requires Header(lines, name, description)
    ensures forall k | 4 <= k < 4 + |lines[1]| + 14 :: !CloseAt(d, Join(lines), k)
  {
    var c := Join(lines);
    var l1, l2 := lines[1], lines[2];
    var h := l1 + "\n" + l2;
    HeaderLines(lines);
    forall k | 4 <= k < 4 + |l1| + 14 ensures !OccursAt(c, "\n---", k) {
      assert c[k] == h[k - 4];
      if k - 4 < |l1| {
        assert h[k - 4] == l1[k - 4];
        if k - 4 >= 6 { assert l1[k - 4] == name[k - 10]; }
      } else if k - 4 == |l1| {
        assert k + 1 < |c| && c[k + 1] == h[k - 3] == 'd';
      } else {
        assert h[k - 4] == l2[k - 5 - |l1|] == "description: \""[k - 5 - |l1|];
      }
    }
  }

  /** The closing delimiter right after the header ends its line, so it closes in both dialects. */
  lemma CloseAfterHeader(lines: seq<string>, name: string, description: string, d: Dialect)
    requires Header(lines, name, description)
    ensures var e := 4 + |lines[1] + "\n" + lines[2]|; e < |Join(lines)| && CloseAt(d, Join(lines), e)
  {
    var c := Join(lines);
    var h := lines[1] + "\n" + lines[2];
    var e := 4 + |h|;
    HeaderLines(lines);
    assert c[e..e + 4] == "\n---";
    assert c[e + 4..e + 4 + 0 + 1] == "" + "\n";
    BlanksEndDelimiterLine(c, e + 4, "");
  }

  lemma MiddleOf(a: string, b: string, x: string, y: string)
    ensures |a| + |b| <= |a + b + x + y| && (a + b + x + y)[|a|..|a| + |b|] == b
  {
  }

  /** The block between the delimiters starts with the name line and holds the description key after it. */
  lemma HeaderKeys(lines: seq<string>, name: string, description: string, c: string, e: nat)
    requires Header(lines, name, description) && c == Join(lines)
    requires 4 + |lines[1]| + 14 <= e <= |c|
    ensures Contains(c[4..e], "name:") && Contains(c[4..e], "description:")
  {
    var l1, l2 := lines[1], lines[2];
    var h := l1 + "\n" + l2;
    HeaderLines(lines);
    MiddleOf("---\n", h, "\n---", "\n" + Join(lines[4..]));
    var fm := c[4..e];
    assert forall k | 0 <= k < |l1| + 13 :: fm[k] == h[k];
    assert fm[..5] == "name:";
    assert OccursAt(fm, "name:", 0);
    assert l2[..12] == "description:";
    assert h[|l1| + 1..|l1| + 13] == l2[..12];
    assert fm[|l1| + 1..|l1| + 13] == h[|l1| + 1..|l1| + 13];
    assert OccursAt(fm, "description:", |l1| + 1);
  }

  /** The first closing delimiter after the opening line is found between the description key and the end of the header. */
  lemma HeaderClose(lines: seq<string>, name: string, description: string, d: Dialect)
    requires Header(lines, name, description)
    ensures var c := Join(lines); var f := FirstClose(d, c, 4);
      f.Some? && 4 + |lines[1]| + 14 <= f.value <= |c|
  {
    var c := Join(lines);
    CloseAfterHeader(lines, name, description, d);
    NoCloseBeforeDescription(lines, name, description, d);
    FirstCloseBetween(d, c, 4, 4 + |lines[1]| + 14, 4 + |lines[1] + "\n" + lines[2]|);
  }

  /** Both dialects find a header block holding `name:` and `description:`. */
  lemma HeaderFrontmatter(lines: seq<string>, name: string, description: string, d: Dialect)
    requires Header(lines, name, description)
    ensures var fm := Frontmatter(d, Join(lines));
      fm.Some? && Contains(fm.value, "name:") && Contains(fm.value, "description:")
  {
    var c := Join(lines);
    HeaderClose(lines, name, description, d);
    var e := FirstClose(d, c, 4).value;
    HeaderLines(lines);
    assert c[..4] == "---\n";
    if d == Lenient {
      assert IsWs(c[3]) && c[4] == 'n';
      SkipWsCovers(c, 3, 4);
    }
    assert Frontmatter(d, c) == Some(c[4..e]);
    HeaderKeys(lines, name, description, c, e);
  }

  // ---------------------------------------------------------------------------
  // The shape of every template, and why it validates cleanly

  /** Line `at[j]` is the heading of `sections[j]`, for every `j`. */
  predicate HeadingLines(lines: seq<string>, at: seq<nat>, sections: seq<string>) {
    && |at| == |sections|
    && forall j | 0 <= j < |at| :: 0 < at[j] < |lines| && lines[at[j]] == "## " + sections[j]
  }

  predicate ShortLines(lines: seq<string>) {
    forall i | 0 <= i < |lines| :: |lines[i]| <= 200
  }

  /** Header, title line, the headings of all five sections, and not too many or too long lines. */
  predicate TemplateShape(lines: seq<string>, name: string, description: string, title: string, required: seq<nat>, recommended: seq<nat>) {
    && Header(lines, name, description) && |lines| <= 1000 && ShortLines(lines)
    && HeadingLines(lines, required, RequiredSections) && HeadingLines(lines, recommended, RecommendedSections)
    && lines[4] == "# " + title && title != [] && title[0] != '#'
  }

  /** Every section whose heading line is there is present. */
  lemma HeadingLinesPresent(lines: seq<string>, at: seq<nat>, sections: seq<string>)
    requires HeadingLines(lines, at, sections)
    requires forall j | 0 <= j < |sections| :: sections[j] != [] && !IsWs(sections[j][0])
    ensures forall j | 0 <= j < |sections| :: HasSection(Join(lines), sections[j])
  {
    forall j | 0 <= j < |sections| ensures HasSection(Join(lines), sections[j]) {
      SectionLine(lines, at[j], sections[j]);
    }
  }

  /** Every section name the validator looks for starts with a letter. */
  lemma SectionNamesStartNonBlank()
    ensures forall j | 0 <= j < |RequiredSections| :: RequiredSections[j] != [] && !IsWs(RequiredSections[j][0])
    ensures forall j | 0 <= j < |RecommendedSections| :: RecommendedSections[j] != [] && !IsWs(RecommendedSections[j][0])
  {
  }

  /** A text that passes every check draws no message. */
  lemma CleanEvaluation(c: string, fm: Option<string>)
    requires !AllWs(c) && Utf8Length(c) <= MaxSizeBytes
    requires fm.Some? && Contains(fm.value, "name:") && Contains(fm.value, "description:") && HasTitle(c)
    requires forall j | 0 <= j < |RequiredSections| :: HasSection(c, RequiredSections[j])
    requires forall j | 0 <= j < |RecommendedSections| :: HasSection(c, RecommendedSections[j])
    ensures Evaluate(c, fm) == ValidationResult(true, [], [])
  {
    SectionMessagesEmpty(c, RequiredSections, Error);
    SectionMessagesEmpty(c, RecommendedSections, Warning);
  }

  /** A template-shaped text is far below the size limit. */
  lemma TemplateSize(lines: seq<string>)
    requires |lines| <= 1000 && ShortLines(lines)
    ensures Utf8Length(Join(lines)) <= MaxSizeBytes
  {
    JoinLength(lines, 200);
    assert |lines| * 201 <= 1000 * 201;
  }

  /** A document of the template shape validates with no error and no warning, in both dialects. */
  lemma TemplateShapeValidates(lines: seq<string>, name: string, description: string, title: string, required: seq<nat>, recommended: seq<nat>, d: Dialect)
    requires TemplateShape(lines, name, description, title, required, recommended)
    ensures Validation(d, Join(lines)) == ValidationResult(true, [], [])
  {
    var c := Join(lines);
    HeaderFrontmatter(lines, name, description, d);
    TitleLine(lines, 4, title);
    SectionNamesStartNonBlank();
    HeadingLinesPresent(lines, required, RequiredSections);
    HeadingLinesPresent(lines, recommended, RecommendedSections);
    TemplateSize(lines);
    JoinStartsWithFirst(lines);
    assert c[0] == '-';
    CleanEvaluation(c, Frontmatter(d, c));
  }

  // ---------------------------------------------------------------------------
  // Outlines: header fields, title and the bodies of the five sections, laid
  // out in order with a blank line before each section heading

  datatype Outline = Outline(
    name: string,
    description: string,
    title: string,
    triggers: seq<string>,
    usage: seq<string>,
    flow: seq<string>,
    examples: seq<string>,
    boundaries: seq<string>)

  /** A blank line, the heading, then the body. */
  function Section(heading: string, body: seq<string>): seq<string> {
    ["", "## " + heading] + body
  }

  /** The lines of the document an outline lays out; the last, empty, line ends the text with a newline. */
  function Render(o: Outline): (lines: seq<string>)
    ensures |lines| == 16 + |o.triggers| + |o.usage| + |o.flow| + |o.examples| + |o.boundaries|
  {
    ["---", "name: " + o.name, "description: \"" + o.description + "\"", "---", "# " + o.title]
      + Section("Triggers", o.triggers)
      + Section("Usage", o.usage)
      + Section("Behavioral Flow", o.flow)
      + Section("Examples", o.examples)
      + Section("Boundaries", o.boundaries)
      + [""]
  }

  /** What an outline must satisfy for its document to validate cleanly. */
  predicate OutlineOk(o: Outline) {
    && '\n' !in o.name && |o.name| <= 190 && |o.description| <= 180
    && |o.title| <= 190 && o.title != [] && o.title[0] != '#'
    && |o.triggers| + |o.usage| + |o.flow| + |o.examples| + |o.boundaries| <= 900
    && ShortLines(o.triggers) && ShortLines(o.usage) && ShortLines(o.flow)
    && ShortLines(o.examples) && ShortLines(o.boundaries)
  }

  /** Where `Render` puts each section heading. */
  function TriggersAt(o: Outline): nat { 6 }
  function UsageAt(o: Outline): nat { TriggersAt(o) + |o.triggers| + 2 }
  function FlowAt(o: Outline): nat { UsageAt(o) + |o.usage| + 2 }
  function ExamplesAt(o: Outline): nat { FlowAt(o) + |o.flow| + 2 }
  function BoundariesAt(o: Outline): nat { ExamplesAt(o) + |o.examples| + 2 }

  lemma RenderHeadings(o: Outline)
    ensures var lines := Render(o);
      && HeadingLines(lines, [TriggersAt(o), UsageAt(o)], RequiredSections)
      && HeadingLines(lines, [ExamplesAt(o), BoundariesAt(o), FlowAt(o)], RecommendedSections)
  {
    var lines := Render(o);
    assert lines[TriggersAt(o)] == "## Triggers";
    assert lines[UsageAt(o)] == "## Usage";
    assert lines[FlowAt(o)] == "## Behavioral Flow";
    assert lines[ExamplesAt(o)] == "## Examples";
    assert lines[BoundariesAt(o)] == "## Boundaries";
  }

  lemma ShortConcat(a: seq<string>, b: seq<string>)
    requires ShortLines(a) && ShortLines(b)
    ensures ShortLines(a + b)
  {
    forall i | 0 <= i < |a + b| ensures |(a + b)[i]| <= 200 {
      if i >= |a| { assert (a + b)[i] == b[i - |a|]; }
    }
  }

  lemma ShortSection(heading: string, body: seq<string>)
    requires |heading| <= 197 && ShortLines(body)
    ensures ShortLines(Section(heading, body))
  {
    ShortConcat(["", "## " + heading], body);
  }

  lemma RenderShort(o: Outline)
    requires OutlineOk(o)
    ensures ShortLines(Render(o))
  {
    var head := ["---", "name: " + o.name, "description: \"" + o.description + "\"", "---", "# " + o.title];
    var s1, s2, s3 := Section("Triggers", o.triggers), Section("Usage", o.usage), Section("Behavioral Flow", o.flow);
    var s4, s5 := Section("Examples", o.examples), Section("Boundaries", o.boundaries);
    ShortSection("Triggers", o.triggers);
    ShortSection("Usage", o.usage);
    ShortSection("Behavioral Flow", o.flow);
    ShortSection("Examples", o.examples);
    ShortSection("Boundaries", o.boundaries);
    ShortConcat(head, s1);
    ShortConcat(head + s1, s2);
    ShortConcat(head + s1 + s2, s3);
    ShortConcat(head + s1 + s2 + s3, s4);
    ShortConcat(head + s1 + s2 + s3 + s4, s5);
    ShortConcat(head + s1 + s2 + s3 + s4 + s5, [""]);
  }

  /** Every outline that keeps to `OutlineOk` lays out a document that validates with no message, in both dialects. */
  lemma OutlineValidates(o: Outline, d: Dialect)
    requires OutlineOk(o)
    ensures Validation(d, Join(Render(o))) == ValidationResult(true, [], [])
  {
    RenderHeadings(o);
    RenderShort(o);
    assert TemplateShape(Render(o), o.name, o.description, o.title,
      [TriggersAt(o), UsageAt(o)], [ExamplesAt(o), BoundariesAt(o), FlowAt(o)]);
    TemplateShapeValidates(Render(o), o.name, o.description, o.title,
      [TriggersAt(o), UsageAt(o)], [ExamplesAt(o), BoundariesAt(o), FlowAt(o)], d);
  }

  // ---------------------------------------------------------------------------
  // The catalog

  const BlankOutline: Outline :=
    Outline(
      "my-skill",
      "A custom Claude Code skill",
      "/my-skill - My Custom Skill",
      ["- Describe when this skill should be activated"],
      ["```",
       "/my-skill [arguments]",
       "```"],
      ["1. Step one of the skill execution",
       "2. Step two of the skill execution",
       "3. Step three of the skill execution"],
      ["```",
       "/my-skill example-usage",
       "```"],
      ["- What this skill should NOT do"])

  const BlankTemplate: SkillTemplate :=
    SkillTemplate("blank", "Blank Skill", "Start from scratch with a minimal skill structure", Join(Render(BlankOutline)))

  const DocumentProcessorOutline: Outline :=
    Outline(
      "doc-processor",
      "Analyze and transform documents with structured output",
      "/doc-processor - Document Processor",
      ["- Document analysis requests",
       "- File transformation needs",
       "- Content extraction tasks"],
      ["```",
       "/doc-processor @file.md --format summary",
       "/doc-processor @file.pdf --extract key-points",
       "```"],
      ["1. Read and parse the input document",
       "2. Identify document structure (headings, sections, lists)",
       "3. Apply the requested transformation",
       "4. Output structured result with clear formatting",
       "5. Provide metadata (word count, sections found, key entities)"],
      ["```",
       "/doc-processor @report.md --format executive-summary",
       "# Output: Concise summary with key findings and recommendations",
       "",
       "/doc-processor @spec.pdf --extract requirements",
       "# Output: Numbered list of extracted requirements",
       "```"],
      ["- Do not modify the original document",
       "- Do not hallucinate content not present in the source",
       "- Preserve attribution and citations"])

  const DocumentProcessorTemplate: SkillTemplate :=
    SkillTemplate("document-processor", "Document Processor", "A skill that analyzes and transforms documents", Join(Render(DocumentProcessorOutline)))

  const ApiIntegrationOutline: Outline :=
    Outline(
      "api-helper",
      "Generate and test API integration code",
      "/api-helper - API Integration Helper",
      ["- API integration requests",
       "- REST/GraphQL endpoint creation",
       "- API client code generation"],
      ["```",
       "/api-helper generate --api stripe --action create-payment",
       "/api-helper test --endpoint /api/users --method POST",
       "```"],
      ["1. Identify the target API and desired operation",
       "2. Check for existing API client patterns in the codebase",
       "3. Generate type-safe integration code following project conventions",
       "4. Include error handling and retry logic",
       "5. Add request/response type definitions",
       "6. Generate corresponding tests"],
      ["```",
       "/api-helper generate --api github --action list-repos",
       "# Output: Type-safe GitHub API client with authentication",
       "",
       "/api-helper test --endpoint /api/auth/login --method POST --body '{\"email\":\"test@example.com\"}'",
       "# Output: Test file with happy path and error scenarios",
       "```"],
      ["- Never hardcode API keys or secrets",
       "- Always use environment variables for configuration",
       "- Follow existing project HTTP client patterns"])

  const ApiIntegrationTemplate: SkillTemplate :=
    SkillTemplate("api-integration", "API Integration", "A skill for interacting with external APIs", Join(Render(ApiIntegrationOutline)))

  const DataAnalyzerOutline: Outline :=
    Outline(
      "data-analyze",
      "Analyze data structures and generate insights",
      "/data-analyze - Data Analyzer",
      ["- Data analysis requests",
       "- Pattern recognition needs",
       "- Database query optimization"],
      ["```",
       "/data-analyze @data.json --find patterns",
       "/data-analyze @schema.sql --optimize queries",
       "```"],
      ["1. Ingest the data source (JSON, CSV, SQL schema)",
       "2. Profile the data structure and identify types",
       "3. Detect patterns, anomalies, and relationships",
       "4. Generate statistical summary or optimization suggestions",
       "5. Present findings in structured markdown with visualizable metrics"],
      ["```",
       "/data-analyze @users.json --find patterns",
       "# Output: User behavior patterns, common attributes, outliers",
       "",
       "/data-analyze @schema.sql --optimize queries",
       "# Output: Index suggestions, query rewrites, normalization advice",
       "```"],
      ["- Do not execute destructive database operations",
       "- Report confidence levels for pattern detection",
       "- Flag potential data quality issues"])

  const DataAnalyzerTemplate: SkillTemplate :=
    SkillTemplate("data-analyzer", "Data Analyzer", "A skill for analyzing data patterns and generating insights", Join(Render(DataAnalyzerOutline)))

  const CustomToolOutline: Outline :=
    Outline(
      "build-tool",
      "Generate custom tool definitions for Claude Code or Mastra",
      "/build-tool - Custom Tool Builder",
      ["- Tool creation requests",
       "- MCP server tool definitions",
       "- Mastra tool generation"],
      ["```",
       "/build-tool mastra --name weather --api open-meteo",
       "/build-tool claude --name file-search --description \"Search files by content\"",
       "```"],
      ["1. Determine target platform (Mastra tool, Claude MCP tool, or standalone)",
       "2. Define tool schema with input/output types",
       "3. Implement the tool execution logic",
       "4. Add input validation and error handling",
       "5. Generate usage documentation and examples",
       "6. Register tool in the appropriate index file"],
      ["```",
       "/build-tool mastra --name stock-price --api alpha-vantage",
       "# Output: Complete Mastra tool with API integration, types, and registration",
       "",
       "/build-tool claude --name code-review --description \"Automated code review\"",
       "# Output: Claude skill definition with triggers, behavioral flow, and examples",
       "```"],
      ["- Follow existing tool patterns in the codebase",
       "- Include proper TypeScript types for all inputs/outputs",
       "- Never store credentials in tool definitions"])

  const CustomToolTemplate: SkillTemplate :=
    SkillTemplate("custom-tool", "Custom Tool Builder", "A skill that generates Mastra/Claude tool definitions", Join(Render(CustomToolOutline)))

  /** `skillTemplates`, in catalog order. */
  const Templates: seq<SkillTemplate> :=
    [BlankTemplate, DocumentProcessorTemplate, ApiIntegrationTemplate, DataAnalyzerTemplate, CustomToolTemplate]

  // ---------------------------------------------------------------------------
  // Every template validates cleanly, in both dialects

  lemma BlankOutlineOk()
    ensures OutlineOk(BlankOutline)
  {
  }

  lemma BlankValidates(d: Dialect)
    ensures Validation(d, BlankTemplate.content) == ValidationResult(true, [], [])
  {
    BlankOutlineOk();
    OutlineValidates(BlankOutline, d);
  }

  lemma DocumentProcessorOutlineOk()
    ensures OutlineOk(DocumentProcessorOutline)
  {
  }

  lemma DocumentProcessorValidates(d: Dialect)
    ensures Validation(d, DocumentProcessorTemplate.content) == ValidationResult(true, [], [])
  {
    DocumentProcessorOutlineOk();
    OutlineValidates(DocumentProcessorOutline, d);
  }

  lemma ApiIntegrationOutlineOk()
    ensures OutlineOk(ApiIntegrationOutline)
  {
  }

  lemma ApiIntegrationValidates(d: Dialect)
    ensures Validation(d, ApiIntegrationTemplate.content) == ValidationResult(true, [], [])
  {
    ApiIntegrationOutlineOk();
    OutlineValidates(ApiIntegrationOutline, d);
  }

  lemma DataAnalyzerOutlineOk()
    ensures OutlineOk(DataAnalyzerOutline)
  {
  }

  lemma DataAnalyzerValidates(d: Dialect)
    ensures Validation(d, DataAnalyzerTemplate.content) == ValidationResult(true, [], [])
  {
    DataAnalyzerOutlineOk();
    OutlineValidates(DataAnalyzerOutline, d);
  }

  lemma CustomToolOutlineOk()
    ensures OutlineOk(CustomToolOutline)
  {
  }

  lemma CustomToolValidates(d: Dialect)
    ensures Validation(d, CustomToolTemplate.content) == ValidationResult(true, [], [])
  {
    CustomToolOutlineOk();
    OutlineValidates(CustomToolOutline, d);
  }

  // ---------------------------------------------------------------------------
  // Lookup

  /** `Array.prototype.find` on the id: the first template carrying it, if any. */
  function FindById(ts: seq<SkillTemplate>, id: string): (r: Option<SkillTemplate>)
    ensures r.None? <==> forall i | 0 <= i < |ts| :: ts[i].id != id
    ensures r.Some? ==>
      (exists i | 0 <= i < |ts| :: ts[i] == r.value && ts[i].id == id && forall j | 0 <= j < i :: ts[j].id != id)
  {
    if ts == [] then None
    else if ts[0].id == id then Some(ts[0])
    else
      var r := FindById(ts[1..], id);
      assert forall i | 1 <= i < |ts| :: ts[i] == ts[1..][i - 1];
      r
  }

  /** The ids of a catalog, in order. */
  function Ids(ts: seq<SkillTemplate>): (r: seq<string>)
    ensures |r| == |ts| && forall i | 0 <= i < |ts| :: r[i] == ts[i].id
  {
    seq(|ts|, i requires 0 <= i < |ts| => ts[i].id)
  }

  /** No two entries share an id. */
  predicate DistinctIds(ts: seq<SkillTemplate>) {
    forall i, j | 0 <= i < j < |ts| :: ts[i].id != ts[j].id
  }

  /** In a catalog of distinct ids, looking up an entry's id finds that entry. */
  lemma FindEachById(ts: seq<SkillTemplate>, i: nat)
    requires DistinctIds(ts) && i < |ts|
    ensures FindById(ts, ts[i].id) == Some(ts[i])
  {
    var r := FindById(ts, ts[i].id);
    var k :| 0 <= k < |ts| && ts[k] == r.value && ts[k].id == ts[i].id && forall j | 0 <= j < k :: ts[j].id != ts[i].id;
    assert k == i;
  }

  /** The lookup succeeds exactly for the ids the catalog holds. */
  lemma FindByIdSome(ts: seq<SkillTemplate>, id: string)
    ensures FindById(ts, id).Some? <==> id in Ids(ts)
  {
    if id in Ids(ts) {
      var i :| 0 <= i < |ts| && Ids(ts)[i] == id;
      assert ts[i].id == id;
    }
  }

  const TemplateIds: seq<string> := ["blank", "document-processor", "api-integration", "data-analyzer", "custom-tool"]

  /** The catalog holds five entries with these ids, all different. */
  lemma CatalogIds()
    ensures Ids(Templates) == TemplateIds && DistinctIds(Templates)
  {
    assert Ids(Templates) == TemplateIds;
  }

  /** `getTemplateById`. */
  function GetTemplateById(id: string): (r: Option<SkillTemplate>)
    ensures r.Some? ==> r.value.id == id
  {
    FindById(Templates, id)
  }

  /** Each entry is found by its id, and an id finds something exactly when it is one of the five. */
  lemma TemplateLookup(id: string)
    ensures forall i | 0 <= i < |Templates| :: GetTemplateById(Templates[i].id) == Some(Templates[i])
    ensures GetTemplateById(id).Some? <==> id in TemplateIds
  {
    CatalogIds();
    forall i | 0 <= i < |Templates| ensures GetTemplateById(Templates[i].id) == Some(Templates[i]) {
      FindEachById(Templates, i);
    }
    FindByIdSome(Templates, id);
  }
}
