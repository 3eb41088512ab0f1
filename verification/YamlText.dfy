/** From text to lines: the checks made before parsing, and the texts a list of lines can come from. */
module YamlText {
  import opened Basics
  import opened ClosedYaml

  predicate AllowedChar(c: char) {
    && c != '\r' && c != '\t' && c as int != 0xfeff
    && (c >= ' ' || c == '\n')
  }

  function Newlines(text: string): nat {
    if text == "" then 0 else (if text[0] == '\n' then 1 else 0) + Newlines(text[1..])
  }

  function LineCount(text: string): nat {
    Newlines(text) + (if text != "" && text[|text| - 1] == '\n' then 0 else 1)
  }

  /** Python's `text.split("\n")`. */
  function Split(text: string): (r: seq<string>)
    ensures |r| > 0
    ensures forall i | 0 <= i < |r| :: '\n' !in r[i]
  {
    if text == "" then [""]
    else
      var r := Split(text[1..]);
      if text[0] == '\n' then [""] + r else [[text[0]] + r[0]] + r[1..]
  }

  function RawLines(text: string): seq<string> {
    var r := Split(text);
    if r[|r| - 1] == "" then r[..|r| - 1] else r
  }

  predicate TextAllowed(text: string) {
    && |text| <= MAX_INPUT
    && (forall i | 0 <= i < |text| :: AllowedChar(text[i]))
    && Utf8Length(text) <= MAX_INPUT
    && LineCount(text) <= MAX_LINES
    && LineCount(text) < MAX_NODES
  }

  function Indentation(raw: string): (n: nat)
    ensures n <= |raw|
    ensures forall i | 0 <= i < n :: raw[i] == ' '
    ensures n < |raw| ==> raw[n] != ' '
  {
    if raw != "" && raw[0] == ' ' then 1 + Indentation(raw[1..]) else 0
  }

  function LineOf(raw: string): Option<Line> {
    if raw == "" || raw[|raw| - 1] == ' ' then None else
    var indent := Indentation(raw);
    if indent % 2 == 1 then None else
    var body := raw[indent..];
    if body == "" || body[0] == '#' || body[0] == '%' || body == "---" || body == "..." then None
    else if body == "-" then Some(Line(indent, true, ""))
    else if StartsWith(body, "- ") then Some(Line(indent, true, body[2..]))
    else Some(Line(indent, false, body))
  }

  function LinesOf(raws: seq<string>): Option<seq<Line>> {
    if raws == [] then Some([]) else
    var front := LinesOf(raws[..|raws| - 1]);
    var last := LineOf(raws[|raws| - 1]);
    if front.None? || last.None? then None else Some(front.value + [last.value])
  }

  function PreparedLines(text: string): Option<seq<Line>> {
    if !TextAllowed(text) || RawLines(text) == [] then None else LinesOf(RawLines(text))
  }

  method Prepare(text: string) returns (r: Option<seq<Line>>)
    ensures r == PreparedLines(text)
  {
    if |text| > MAX_INPUT {
      return None;
    }
    for i := 0 to |text|
      invariant forall j | 0 <= j < i :: AllowedChar(text[j])
    {
      if !AllowedChar(text[i]) {
        return None;
      }
    }
    if Utf8Length(text) > MAX_INPUT {
      return None;
    }
    var lineCount := LineCount(text);
    if lineCount > MAX_LINES {
      return None;
    }
    var rawLines := RawLines(text);
    if rawLines == [] || lineCount >= MAX_NODES {
      return None;
    }
    var lines: seq<Line> := [];
    for i := 0 to |rawLines|
      invariant LinesOf(rawLines[..i]) == Some(lines)
    {
      assert rawLines[..i + 1][..i] == rawLines[..i];
      var line := LineOf(rawLines[i]);
      if line.None? {
        LinesOfFails(rawLines, i);
        return None;
      }
      lines := lines + [line.value];
    }
    assert rawLines[..|rawLines|] == rawLines;
    return Some(lines);
  }

  lemma {:induction false} LinesOfFails(raws: seq<string>, i: nat)
    requires i < |raws| && LineOf(raws[i]) == None
    ensures LinesOf(raws) == None
  {
    if i < |raws| - 1 {
      LinesOfFails(raws[..|raws| - 1], i);
    }
  }

  // ---------- Writing lines ----------

  function Spaces(n: nat): (s: string)
    ensures |s| == n
    ensures forall i | 0 <= i < n :: s[i] == ' '
  {
    seq(n, _ => ' ')
  }

  function Marked(line: Line): string {
    if !line.sequence then line.body else if line.body == "" then "-" else "- " + line.body
  }

  function Raw(line: Line): string {
    Spaces(line.indent) + Marked(line)
  }

  function Raws(lines: seq<Line>): seq<string> {
    seq(|lines|, i requires 0 <= i < |lines| => Raw(lines[i]))
  }

  function Joined(raws: seq<string>): string
    requires raws != []
  {
    if |raws| == 1 then raws[0] else raws[0] + "\n" + Joined(raws[1..])
  }

  /** The text of some lines, with or without a final line feed. */
  function Rendered(lines: seq<Line>, terminated: bool): string
    requires lines != []
  {
    Joined(Raws(lines)) + (if terminated then "\n" else "")
  }

  /** The lines a raw line can stand for. */
  predicate WellFormed(line: Line) {
    && line.indent % 2 == 0
    && '\n' !in line.body
    && (line.body != "" ==> line.body[|line.body| - 1] != ' ')
    && (!line.sequence ==>
          && line.body != "" && line.body[0] !in {' ', '#', '%'}
          && line.body !in {"---", "...", "-"} && !StartsWith(line.body, "- "))
  }

  predicate AllWellFormed(lines: seq<Line>) {
    forall i | 0 <= i < |lines| :: WellFormed(lines[i])
  }

  lemma LineOfRaw(line: Line)
    requires WellFormed(line)
    ensures LineOf(Raw(line)) == Some(line)
    ensures Raw(line) != "" && '\n' !in Raw(line)
  {
    var raw, body := Raw(line), Marked(line);
    assert body[0] != ' ' && body[|body| - 1] != ' ';
    assert raw[|raw| - 1] == body[|body| - 1];
    assert raw[line.indent] == body[0];
    assert forall i | 0 <= i < line.indent :: raw[i] == ' ';
    assert Indentation(raw) == line.indent;
    assert raw[line.indent..] == body;
    if line.sequence {
      assert body[0] == '-' && (|body| == 1 || body[1] == ' ');
      if line.body != "" {
        assert body[..2] == "- " && body[2..] == line.body;
      }
    }
  }

  lemma NoNewlineInSuffix(s: string, k: nat)
    requires k <= |s| && '\n' !in s
    ensures '\n' !in s[k..]
  {
  }

  lemma RawOfLine(raw: string)
    requires LineOf(raw).Some? && '\n' !in raw
    ensures WellFormed(LineOf(raw).value) && Raw(LineOf(raw).value) == raw
  {
    var line := LineOf(raw).value;
    var body := raw[line.indent..];
    NoNewlineInSuffix(raw, line.indent);
    assert body[|body| - 1] == raw[|raw| - 1];
    assert Marked(line) == body by {
      if line.sequence && line.body != "" {
        assert body == body[..2] + body[2..];
      }
    }
    if line.sequence && line.body != "" {
      NoNewlineInSuffix(body, 2);
      assert body[2..][|body[2..]| - 1] == body[|body| - 1];
    }
    assert raw == Spaces(line.indent) + body;
  }

  lemma {:induction false} LinesOfRaws(raws: seq<string>, lines: seq<Line>)
    requires forall i | 0 <= i < |raws| :: '\n' !in raws[i]
    ensures LinesOf(raws) == Some(lines) <==> AllWellFormed(lines) && raws == Raws(lines)
  {
    hide LineOf, Raw, WellFormed;
    if raws == [] {
      assert Raws([]) == [];
      assert lines != [] ==> |Raws(lines)| > 0;
    } else {
      var front, last := raws[..|raws| - 1], raws[|raws| - 1];
      if LinesOf(raws) == Some(lines) {
        LinesOfRaws(front, LinesOf(front).value);
        RawOfLine(last);
        assert raws == front + [last];
        assert Raws(lines) == front + [last];
      }
      if AllWellFormed(lines) && raws == Raws(lines) {
        var k := |lines| - 1;
        assert front == Raws(lines[..k]);
        assert last == Raw(lines[k]);
        LinesOfRaws(front, lines[..k]);
        LineOfRaw(lines[k]);
        assert lines[..k] + [lines[k]] == lines;
      }
    }
  }

  lemma {:induction false} JoinedSplit(text: string)
    ensures Joined(Split(text)) == text
  {
    if text != "" {
      var r := Split(text[1..]);
      JoinedSplit(text[1..]);
      assert text == [text[0]] + text[1..];
      if text[0] == '\n' {
        assert ([""] + r)[1..] == r;
      } else {
        var all := [[text[0]] + r[0]] + r[1..];
        assert all[1..] == r[1..];
      }
    }
  }

  lemma {:induction false} SplitOfPrefix(line: string, rest: string)
    requires '\n' !in line
    ensures Split(line + "\n" + rest) == [line] + Split(rest)
    ensures Split(line) == [line]
  {
    if line == "" {
      assert line + "\n" + rest == "\n" + rest;
    } else {
      SplitOfPrefix(line[1..], rest);
      assert (line + "\n" + rest)[1..] == line[1..] + "\n" + rest;
      assert [line[0]] + line[1..] == line;
    }
  }

  lemma {:induction false} SplitJoined(raws: seq<string>)
    requires raws != [] && forall i | 0 <= i < |raws| :: '\n' !in raws[i]
    ensures Split(Joined(raws)) == raws
  {
    if |raws| == 1 {
      SplitOfPrefix(raws[0], "");
    } else {
      SplitJoined(raws[1..]);
      SplitOfPrefix(raws[0], Joined(raws[1..]));
    }
  }

  lemma {:induction false} JoinedAppendEmpty(raws: seq<string>)
    requires raws != []
    ensures Joined(raws + [""]) == Joined(raws) + "\n"
  {
    if |raws| == 1 {
      assert (raws + [""])[1..] == [""];
      assert raws[0] + "\n" + "" == raws[0] + "\n";
    } else {
      JoinedAppendEmpty(raws[1..]);
      assert (raws + [""])[1..] == raws[1..] + [""];
    }
  }

  lemma DropFinalEmpty(r: seq<string>, raws: seq<string>)
    requires r != [] && raws != [] && raws[|raws| - 1] != ""
    ensures (if r[|r| - 1] == "" then r[..|r| - 1] else r) == raws <==> r == raws || r == raws + [""]
  {
    if r[|r| - 1] == "" {
      assert r == r[..|r| - 1] + [""];
      assert (raws + [""])[..|raws|] == raws;
    }
  }

  lemma SplitIs(text: string, raws: seq<string>)
    requires raws != [] && forall i | 0 <= i < |raws| :: '\n' !in raws[i]
    ensures Split(text) == raws <==> text == Joined(raws)
  {
    JoinedSplit(text);
    SplitJoined(raws);
  }

  /** The texts whose raw lines are `raws`: with or without a final line feed. */
  lemma RawLinesAre(text: string, raws: seq<string>)
    requires raws != [] && forall i | 0 <= i < |raws| :: '\n' !in raws[i] && raws[i] != ""
    ensures RawLines(text) == raws <==> text == Joined(raws) || text == Joined(raws) + "\n"
  {
    DropFinalEmpty(Split(text), raws);
    SplitIs(text, raws);
    SplitIs(text, raws + [""]);
    JoinedAppendEmpty(raws);
  }

  /** Preparation succeeds exactly on allowed text that renders well-formed lines. */
  lemma PreparedIsRendered(text: string, lines: seq<Line>)
    ensures PreparedLines(text) == Some(lines)
       <==> && TextAllowed(text) && lines != [] && AllWellFormed(lines)
            && (text == Rendered(lines, false) || text == Rendered(lines, true))
  {
    var raws := RawLines(text);
    LinesOfRaws(raws, lines);
    if lines != [] && AllWellFormed(lines) {
      forall i | 0 <= i < |lines| ensures Raws(lines)[i] != "" && '\n' !in Raws(lines)[i] {
        LineOfRaw(lines[i]);
      }
      assert Joined(Raws(lines)) + "" == Joined(Raws(lines));
      RawLinesAre(text, Raws(lines));
    }
  }
}
