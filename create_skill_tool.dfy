/**
 * The `execute` body of the create-skill tool (src/mastra/tools/index.ts):
 * name and description are matched over the whole document, not only its
 * frontmatter, and the document itself is passed through.
 */
module CreateSkillTool {
  import opened Options
  import opened Text
  import opened SkillDocument
  import opened ZipCreator

  const DefaultName: string := "created-skill"

  /**
   * The two matches and their fallbacks, with the default name as a
   * parameter: the route handlers inline the same expressions with their own
   * default.
   */
  function DocumentMetadata(content: string, defaultName: string): (m: Metadata)
    ensures defaultName != "" ==> m.name != ""
    ensures m.version == "1.0.0"
  {
    Metadata(FieldOr(NamePattern, content, defaultName), FieldOr(DescriptionPattern(true), content, ""), "1.0.0")
  }

  /** `execute({content})`: defined for every text. */
  function Execute(content: string): (r: SkillPackageData)
    ensures r.skillContent == content
    ensures r.metadata.name != "" && r.metadata.version == "1.0.0"
  {
    SkillPackageData(content, DocumentMetadata(content, DefaultName))
  }

  /** The description never holds a quote or a newline, and the name never a line break. */
  lemma ExecuteFieldsStayOnOneLine(content: string)
    ensures var m := Execute(content).metadata;
      && '"' !in m.description && '\n' !in m.description
      && forall k | 0 <= k < |m.name| :: !IsLineTerminator(m.name[k])
  {
    FieldOrHasNoStop(DescriptionPattern(true), content, "");
    FieldOrHasNoStop(NamePattern, content, DefaultName);
  }

  /** The name comes from the first `name:` anywhere, even the tail of `username:`. */
  lemma ExecuteMatchesAnyNameKey(v: string, rest: string)
    requires v != [] && !IsWs(v[0]) && !IsWs(v[|v| - 1])
    requires forall k | 0 <= k < |v| :: !IsLineTerminator(v[k])
    ensures Execute("user" + "name: " + v + "\n" + rest).metadata.name == v
  {
    NameLine("user", v, rest, DefaultName);
  }

  /** Without a `name:` anywhere, the default is used. */
  lemma ExecuteDefaultName(content: string)
    requires !Contains(content, "name:")
    ensures Execute(content).metadata.name == DefaultName
  {
    FieldOrWithoutKey(NamePattern, content, DefaultName);
  }

  /** An unquoted description ends with its line, where the lenient extraction would run on. */
  lemma ExecuteDescriptionStopsAtLineEnd(v: string, w: string)
    requires v != [] && !IsWs(v[0]) && !IsWs(v[|v| - 1]) && v[0] != '"'
    requires '"' !in v && '\n' !in v
    ensures Execute("description: " + v + "\n" + w).metadata.description == v
  {
    var p := DescriptionPattern(true);
    var s := "description: " + v + "\n" + w;
    var e := 13 + |v|;
    assert s[..12] == "description:";
    assert s[12] == ' ' && s[13] == v[0] && s[e] == '\n';
    SkipWsCovers(s, 12, 13);
    forall k | 13 <= k < e ensures !Stops(p, s[k]) {
      assert s[k] == v[k - 13];
    }
    RunEndIs(p, s, 13, e);
    assert s[13..e] == v;
    assert MatchAt(p, s, 0) == Some(v);
    TrimOfTrimmed(v);
  }
}
