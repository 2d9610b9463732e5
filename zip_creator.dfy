/**
 * Package assembly (src/lib/zipCreator.ts): the metadata merge with its
 * fallbacks, the generated README and the three archive entries, added one
 * after another. Compression and the JSON text of `metadata.json` are not
 * modelled; the entry holds the record that would be serialised.
 */
module ZipCreator {
  import opened Text
  import opened SkillDocument

  datatype Metadata = Metadata(name: string, description: string, version: string)

  /** What a stored or downloaded skill carries. */
  datatype SkillPackageData = SkillPackageData(skillContent: string, metadata: Metadata)

  /** The record written to `metadata.json`; `createdAt` is the clock reading, passed in. */
  datatype FullMetadata = FullMetadata(
    name: string,
    description: string,
    version: string,
    createdAt: string,
    format: string,
    compatibility: string)

  datatype EntryContent = Text(text: string) | Json(record: FullMetadata)

  datatype Entry = Entry(path: string, content: EntryContent)

  /** JavaScript's `a || b` on strings: the empty string is falsy. */
  function Or(a: string, b: string): (r: string)
    ensures r == a || r == b
    ensures r == "" <==> a == "" && b == ""
  {
    if a != "" then a else b
  }

  /**
   * The `fullMetadata` literal: each field is the caller's value when
   * non-empty, else the lenient extraction or `1.0.0`; format and
   * compatibility are fixed.
   */
  function MergeMetadata(m: Metadata, skillContent: string, createdAt: string): (r: FullMetadata)
    ensures r.name != ""
    ensures m.name != "" ==> r.name == m.name
    ensures m.name == "" ==> r.name == Extract(Lenient, skillContent).name
    ensures m.description != "" ==> r.description == m.description
    ensures m.description == "" ==> r.description == Extract(Lenient, skillContent).description
    ensures r.version != ""
    ensures m.version != "" ==> r.version == m.version
    ensures m.version == "" ==> r.version == "1.0.0"
    ensures r.createdAt == createdAt
    ensures r.format == "claude-code-skill" && r.compatibility == "claude-code@1.0+"
  {
    var extracted := Extract(Lenient, skillContent);
    FullMetadata(
      Or(m.name, extracted.name),
      Or(m.description, extracted.description),
      Or(m.version, "1.0.0"),
      createdAt,
      "claude-code-skill",
      "claude-code@1.0+")
  }

  /** The install line of the README. */
  function InstallLine(name: string): string {
    "cp SKILL.md ~/.claude/commands/" + name + ".md"
  }

  /** The fenced invocation block of the README. */
  function InvokeBlock(name: string): string {
    "```\n/" + name + "\n```"
  }

  /** The fixed text between the description and the install line. */
  const InstallIntro: string :=
    "\n\n## Installation\n\nCopy `SKILL.md` to your Claude Code commands directory:\n\n```bash\nmkdir -p ~/.claude/commands\n"

  /** The fixed text between the install line and the invocation block. */
  const UsageIntro: string :=
    "\n```\n\n## Usage\n\nOnce installed, invoke the skill in Claude Code:\n\n"

  const Footer: string := "\n---\n\nCreated by Stackable\n"

  /** Eight pieces laid end to end, the odd ones filled in and the even ones fixed. */
  function Fill(p1: string, p2: string, p3: string, p4: string, p5: string, p6: string, p7: string, p8: string): string {
    p1 + p2 + p3 + p4 + p5 + p6 + p7 + p8
  }

  /** The text starts with its first piece and contains the third, fifth and seventh. */
  lemma FillContains(p1: string, p2: string, p3: string, p4: string, p5: string, p6: string, p7: string, p8: string)
    ensures p1 <= Fill(p1, p2, p3, p4, p5, p6, p7, p8)
    ensures Contains(Fill(p1, p2, p3, p4, p5, p6, p7, p8), p3)
    ensures Contains(Fill(p1, p2, p3, p4, p5, p6, p7, p8), p5)
    ensures Contains(Fill(p1, p2, p3, p4, p5, p6, p7, p8), p7)
  {
    var a := p1 + p2 + p3;
    var b := a + p4 + p5;
    var c := b + p6 + p7;
    var r := c + p8;
    ContainsAtEnd(p1 + p2, p3);
    ContainsExtend(a, p4 + p5, p3);
    assert b == a + (p4 + p5);
    ContainsAtEnd(a + p4, p5);
    ContainsExtend(b, p6 + p7, p3);
    ContainsExtend(b, p6 + p7, p5);
    assert c == b + (p6 + p7);
    ContainsAtEnd(b + p6, p7);
    ContainsExtend(c, p8, p3);
    ContainsExtend(c, p8, p5);
    ContainsExtend(c, p8, p7);
    assert r[..|p1|] == p1;
  }

  /** `createReadme`: the template with the name, description and version filled in. */
  function CreateReadme(name: string, description: string, version: string): (r: string)
    ensures "# " + name + "\n\n" + description <= r
    ensures Contains(r, InstallLine(name))
    ensures Contains(r, InvokeBlock(name))
    ensures Contains(r, "## Version\n\n" + version + "\n")
  {
    var head := "# " + name + "\n\n" + description;
    var versionPart := "## Version\n\n" + version + "\n";
    FillContains(head, InstallIntro, InstallLine(name), UsageIntro, InvokeBlock(name), "\n\n", versionPart, Footer);
    Fill(head, InstallIntro, InstallLine(name), UsageIntro, InvokeBlock(name), "\n\n", versionPart, Footer)
  }

  /** The README of a merged record. */
  function ReadmeOf(meta: FullMetadata): string {
    CreateReadme(meta.name, meta.description, meta.version)
  }

  /**
   * The entries `createSkillZip` adds, in the order it adds them: exactly
   * three, `SKILL.md` verbatim, then the merged metadata, then a README that
   * names the same skill and description and gives the install line.
   */
  function PackageEntries(data: SkillPackageData, createdAt: string): (es: seq<Entry>)
    ensures |es| == 3
    ensures es[0] == Entry("SKILL.md", Text(data.skillContent))
    ensures es[1] == Entry("metadata.json", Json(MergeMetadata(data.metadata, data.skillContent, createdAt)))
    ensures es[2].path == "README.md" && es[2].content.Text?
    ensures var meta := es[1].content.record;
      && "# " + meta.name + "\n\n" + meta.description <= es[2].content.text
      && Contains(es[2].content.text, InstallLine(meta.name))
  {
    var meta := MergeMetadata(data.metadata, data.skillContent, createdAt);
    [Entry("SKILL.md", Text(data.skillContent)), Entry("metadata.json", Json(meta)), Entry("README.md", Text(ReadmeOf(meta)))]
  }

  /** The archive being built: its entries in the order they were added. */
  class ZipArchive {
    var entries: seq<Entry>

    constructor ()
      ensures entries == []
    {
      entries := [];
    }

    /** `zip.file(path, content)`. */
    method File(path: string, content: EntryContent)
      modifies this
      ensures entries == old(entries) + [Entry(path, content)]
    {
      entries := entries + [Entry(path, content)];
    }
  }

  /** `createSkillZip` up to compression: one `zip.file` call per entry. */
  method CreateSkillZip(data: SkillPackageData, createdAt: string) returns (zip: ZipArchive)
    ensures fresh(zip)
    ensures zip.entries == PackageEntries(data, createdAt)
  {
    zip := new ZipArchive();
    zip.File("SKILL.md", Text(data.skillContent));
    var fullMetadata := MergeMetadata(data.metadata, data.skillContent, createdAt);
    zip.File("metadata.json", Json(fullMetadata));
    var readme := CreateReadme(fullMetadata.name, fullMetadata.description, fullMetadata.version);
    zip.File("README.md", Text(readme));
  }
}
