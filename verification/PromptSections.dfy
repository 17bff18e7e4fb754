/** Prompt sections (`prompt_compiler/models.py`), whitespace as Python strips it, and the token estimate. */
module PromptSections {

  datatype SectionName =
    | SystemName
    | BusinessName
    | SchemaName
    | RelationshipName
    | ExamplesName
    | ConstraintName
    | OutputName

  /** The two extra fields are empty on the section types that do not carry them. */
  datatype Section = Section(
    name: SectionName,
    content: string,
    tokens: nat,
    priority: nat,
    required: bool,
    exampleIds: seq<string>,
    schemaObjects: seq<string>)

  const CHARS_PER_TOKEN := 4

  const MARKER: string := "\n...[truncated to fit token budget]"

  predicate IsSpace(c: char) {
    || '\t' <= c <= '\r' || '\U{1c}' <= c <= ' ' || c == '\U{85}' || c == '\U{a0}' || c == '\U{1680}'
    || '\U{2000}' <= c <= '\U{200a}' || c == '\U{2028}' || c == '\U{2029}' || c == '\U{202f}'
    || c == '\U{205f}' || c == '\U{3000}'
  }

  function RStrip(s: string): (r: string)
    ensures r <= s
    ensures r != "" ==> !IsSpace(r[|r| - 1])
    ensures forall i :: |r| <= i < |s| ==> IsSpace(s[i])
  {
    if s != "" && IsSpace(s[|s| - 1]) then RStrip(s[..|s| - 1]) else s
  }

  /** The characters stripped, one by one: the ASCII controls and the space, then those beyond ASCII. */
  lemma SpacesAre(c: char)
    ensures IsSpace(c) <==>
              || c in "\t\n\U{b}\U{c}\r\U{1c}\U{1d}\U{1e}\U{1f} "
              || c in "\U{85}\U{a0}\U{1680}\U{2028}\U{2029}\U{202f}\U{205f}\U{3000}"
              || c in "\U{2000}\U{2001}\U{2002}\U{2003}\U{2004}\U{2005}\U{2006}\U{2007}\U{2008}\U{2009}\U{200a}"
  {
  }

  /** `not text.strip()`. */
  predicate Blank(s: string) {
    forall i :: 0 <= i < |s| ==> IsSpace(s[i])
  }

  lemma BlankIsStrippedAway(s: string)
    ensures Blank(s) <==> RStrip(s) == ""
  {
    var r := RStrip(s);
    if r != "" {
      assert r[|r| - 1] == s[|r| - 1];
    }
  }

  function EstimateTokens(text: string): nat {
    if text == "" then 0 else (|text| + CHARS_PER_TOKEN - 1) / CHARS_PER_TOKEN
  }

  /** The estimate is the least number of four-character tokens that covers the text. */
  lemma EstimateIsCeiling(text: string, n: nat)
    ensures EstimateTokens(text) <= n <==> |text| <= CHARS_PER_TOKEN * n
  {
  }

  function Total(sections: seq<Section>): nat {
    if sections == [] then 0 else Total(sections[..|sections| - 1]) + sections[|sections| - 1].tokens
  }

  predicate DistinctNames(sections: seq<Section>) {
    forall i, j :: 0 <= i < j < |sections| ==> sections[i].name != sections[j].name
  }
}
