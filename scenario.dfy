/**
 * The parsing half of the end-to-end scenario: one source text holding two
 * endpoints, a comment line, a malformed line and a final line break.
 */
module Scenario {
  import opened Text
  import opened Parser
  import opened Wrappers

  /** The source text of the end-to-end scenario. */
  const ScenarioText: string := "1.1.1.1" + "\n" + "#comment" + "\n" + "2.2.2.2:8080" + "\n" + "not-an-ip" + "\n"

  /** A line with no `#`, starting and ending with a non-space, cleans to itself. */
  lemma CleanPlainLine(line: string)
    requires '#' !in line && line != [] && !IsSpace(line[0]) && !IsSpace(line[|line| - 1])
    ensures CleanLine(line) == line
  {
    SplitWithoutSeparator(line, '#');
    TrimUnchanged(line);
  }

  /** The lines of the scenario text. */
  const ScenarioLines: seq<string> := ["1.1.1.1", "#comment", "2.2.2.2:8080", "not-an-ip", ""]

  lemma JoinFiveLines(a: string, b: string, c: string, d: string, e: string)
    ensures Join([a, b, c, d, e], '\n') == a + "\n" + b + "\n" + c + "\n" + d + "\n" + e
  {
    var ls := [a, b, c, d, e];
    assert ls[1..] == [b, c, d, e] && ls[1..][1..] == [c, d, e];
    assert [c, d, e][1..] == [d, e] && [d, e][1..] == [e];
    assert Join([e], '\n') == e;
    assert Join([d, e], '\n') == d + "\n" + e;
    assert Join([c, d, e], '\n') == c + "\n" + d + "\n" + e;
    assert Join([b, c, d, e], '\n') == b + "\n" + c + "\n" + d + "\n" + e;
  }

  /** Five lines without line breaks, joined by line breaks, split back into themselves. */
  lemma SplitFiveLines(a: string, b: string, c: string, d: string, e: string)
    requires '\n' !in a && '\n' !in b && '\n' !in c && '\n' !in d && '\n' !in e
    ensures Split(a + "\n" + b + "\n" + c + "\n" + d + "\n" + e, '\n') == [a, b, c, d, e]
  {
    JoinFiveLines(a, b, c, d, e);
    SplitJoin([a, b, c, d, e], '\n');
  }

  lemma ScenarioLinesUnbroken()
    ensures '\n' !in "1.1.1.1" && '\n' !in "#comment" && '\n' !in "2.2.2.2:8080" && '\n' !in "not-an-ip"
  {
  }

  lemma ScenarioSplit()
    ensures Split(ScenarioText, '\n') == ScenarioLines
  {
    assert ScenarioText == ScenarioText + "";
    ScenarioLinesUnbroken();
    SplitFiveLines("1.1.1.1", "#comment", "2.2.2.2:8080", "not-an-ip", "");
  }

  /** The first line is kept as it is. */
  lemma ScenarioFirstLine()
    ensures CleanLine("1.1.1.1") == "1.1.1.1" && IsEndpoint("1.1.1.1")
  {
    CleanPlainLine("1.1.1.1");
    ScenarioFirstIsEndpoint();
  }

  lemma ScenarioFirstIsEndpoint()
    ensures IsEndpoint("1.1.1.1")
  {
    var e := Endpoint(["1", "1", "1", "1"], None);
    JoinFour("1", "1", "1", "1");
    assert Render(e) == "1.1.1.1";
    ParseComplete(e);
  }

  /** The third line, with a port, is kept as it is. */
  lemma ScenarioThirdLine()
    ensures CleanLine("2.2.2.2:8080") == "2.2.2.2:8080" && IsEndpoint("2.2.2.2:8080")
  {
    CleanPlainLine("2.2.2.2:8080");
    ScenarioThirdIsEndpoint();
  }

  lemma ScenarioThirdIsEndpoint()
    ensures IsEndpoint("2.2.2.2:8080")
  {
    var e := Endpoint(["2", "2", "2", "2"], Some("8080"));
    JoinFour("2", "2", "2", "2");
    assert Render(e) == "2.2.2.2:8080";
    ParseComplete(e);
  }

  /** The comment line cleans to `""` and is dropped. */
  lemma ScenarioCommentLine()
    ensures !IsEndpoint(CleanLine("#comment"))
  {
    assert Split("#comment", '#')[0] == "";
    EmptyIsNotEndpoint();
  }

  /** The malformed line is dropped. */
  lemma ScenarioMalformedLine()
    ensures !IsEndpoint(CleanLine("not-an-ip"))
  {
    CleanPlainLine("not-an-ip");
    assert DigitRun("not-an-ip") == 0;
  }

  /** The empty piece after the final line break is dropped. */
  lemma ScenarioLastLine()
    ensures !IsEndpoint(CleanLine(""))
  {
    assert CleanLine("") == "";
    EmptyIsNotEndpoint();
  }

  /** Parsing five lines of which the first and third are clean candidates and the rest are dropped. */
  lemma {:induction false} ParseFiveLines(l0: string, l1: string, l2: string, l3: string, l4: string)
    requires CleanLine(l0) == l0 && IsEndpoint(l0)
    requires !IsEndpoint(CleanLine(l1))
    requires CleanLine(l2) == l2 && IsEndpoint(l2)
    requires !IsEndpoint(CleanLine(l3)) && !IsEndpoint(CleanLine(l4))
    ensures ParseLines([l0, l1, l2, l3, l4]) == [l0, l2]
  {
    var lines := [l0, l1, l2, l3, l4];
    assert lines[4..][1..] == [];
    assert ParseLines(lines[4..]) == [];
    assert lines[3..][1..] == lines[4..];
    assert ParseLines(lines[3..]) == [];
    assert lines[2..][1..] == lines[3..];
    assert ParseLines(lines[2..]) == [l2];
    assert lines[1..][1..] == lines[2..];
    assert ParseLines(lines[1..]) == [l2];
  }

  /** The scenario text parses to its two well-formed lines. */
  lemma ScenarioParse()
    ensures ParseText(ScenarioText) == ["1.1.1.1", "2.2.2.2:8080"]
  {
    ScenarioSplit();
    ScenarioFirstLine();
    ScenarioCommentLine();
    ScenarioThirdLine();
    ScenarioMalformedLine();
    ScenarioLastLine();
    ParseFiveLines("1.1.1.1", "#comment", "2.2.2.2:8080", "not-an-ip", "");
  }
}
