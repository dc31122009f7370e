/**
  What the indenting stream does to whole texts: the indentation of each line by counting
  braces, the pretty-print of block-structured text, and the recovery of the input.
 */
module FormatterTheory {
  import opened OutputFormatter

  // ---------- lines ----------

  predicate IsLine(line: string) {
    '\n' !in line
  }

  predicate OpensBlock(line: string) {
    line != [] && line[|line| - 1] == '{'
  }

  predicate ClosesBlock(line: string) {
    line != [] && line[0] == '}'
  }

  datatype Style = Style(indentChar: char, indentSize: int)

  function StyleOf(f: Format): Style {
    Style(f.indentChar, f.indentSize)
  }

  /** The indentation of a line at a level: none for an empty line or one that starts with '#'. */
  function LineIndent(style: Style, level: int, line: string): string {
    if line == [] || line[0] == '#' then [] else Repeat(style.indentChar, level * style.indentSize)
  }

  ghost predicate AtLineStart(f: Format) {
    f.newLine && !f.openBrace
  }

  function ClosingLevel(level: int, line: string): int {
    if ClosesBlock(line) then level - 1 else level
  }

  function LevelAfterLine(level: int, line: string): int {
    ClosingLevel(level, line) + if OpensBlock(line) then 1 else 0
  }

  /** Once a line has begun nothing more is inserted until its end. */
  lemma {:induction false} RestOfLine(f: Format, line: string)
    requires !f.newLine && IsLine(line)
    ensures Formatted(f, line) == line
    ensures After(f, line) == f.(openBrace := if line == [] then f.openBrace else OpensBlock(line))
    decreases |line|
  {
    if line != [] {
      assert line[0] != '\n';
      assert forall c :: c in line[1..] ==> c in line;
      RestOfLine(Step(f, line[0]), line[1..]);
      assert line[1..] != [] ==> line[1..][|line[1..]| - 1] == line[|line| - 1];
    }
  }

  /** One line, without its end. */
  lemma {:induction false} WholeLine(f: Format, line: string)
    requires AtLineStart(f) && IsLine(line)
    ensures Formatted(f, line) == LineIndent(StyleOf(f), ClosingLevel(f.level, line), line) + line
    ensures After(f, line) == f.(level := ClosingLevel(f.level, line), newLine := line == [], openBrace := OpensBlock(line))
  {
    if line != [] {
      FirstOfLine(f, line);
      RestOfLine(Step(f, line[0]), line[1..]);
      assert line == [line[0]] + line[1..];
      assert line[1..] == [] || line[1..][|line[1..]| - 1] == line[|line| - 1];
    }
  }

  lemma {:induction false} FirstOfLine(f: Format, line: string)
    requires AtLineStart(f) && IsLine(line) && line != []
    ensures IndentFor(f, line[0]) == LineIndent(StyleOf(f), ClosingLevel(f.level, line), line)
    ensures Step(f, line[0]) == f.(level := ClosingLevel(f.level, line), newLine := false, openBrace := line[0] == '{')
    ensures IsLine(line[1..])
  {
    assert line[0] != '\n';
    assert forall c :: c in line[1..] ==> c in line;
  }

  lemma {:induction false} LineAndEnd(f: Format, line: string)
    requires AtLineStart(f) && IsLine(line)
    ensures Formatted(f, line + "\n") == LineIndent(StyleOf(f), ClosingLevel(f.level, line), line) + line + "\n"
    ensures After(f, line + "\n") == f.(level := LevelAfterLine(f.level, line))
    ensures AtLineStart(After(f, line + "\n"))
  {
    WholeLine(f, line);
    AfterConcat(f, line, "\n");
    var g := After(f, line);
    assert "\n"[1..] == [];
    assert Formatted(g, "\n") == IndentFor(g, '\n') + "\n" + Formatted(Step(g, '\n'), []);
    assert After(g, "\n") == Step(g, '\n');
  }

  // ---------- every text, by counting braces ----------

  function Join(lines: seq<string>): string
    requires lines != []
  {
    if |lines| == 1 then lines[0] else lines[0] + "\n" + Join(lines[1..])
  }

  function Lines(text: string): (lines: seq<string>)
    ensures lines != []
  {
    if text == [] then [[]]
    else if text[0] == '\n' then [[]] + Lines(text[1..])
    else var rest := Lines(text[1..]); [[text[0]] + rest[0]] + rest[1..]
  }

  /** Every text is its lines, joined. */
  lemma {:induction false} JoinLines(text: string)
    ensures Join(Lines(text)) == text
    ensures forall i :: 0 <= i < |Lines(text)| ==> IsLine(Lines(text)[i])
    decreases |text|
  {
    if text != [] {
      JoinLines(text[1..]);
      var rest := Lines(text[1..]);
      if text[0] == '\n' {
        assert Lines(text)[1..] == rest;
      } else {
        assert IsLine(rest[0]);
        assert Lines(text)[1..] == rest[1..];
        assert |rest| > 1 ==> Join(rest) == rest[0] + "\n" + Join(rest[1..]);
        assert [text[0]] + text[1..] == text;
      }
    }
  }

  function CountOpening(lines: seq<string>): nat {
    if lines == [] then 0 else (if OpensBlock(lines[0]) then 1 else 0) + CountOpening(lines[1..])
  }

  function CountClosing(lines: seq<string>): nat {
    if lines == [] then 0 else (if ClosesBlock(lines[0]) then 1 else 0) + CountClosing(lines[1..])
  }

  /** Start level, plus the earlier lines that open, minus the lines up to and with this one that close. */
  function CountedLevel(start: int, lines: seq<string>, i: nat): int
    requires i < |lines|
  {
    start + CountOpening(lines[..i]) - CountClosing(lines[..i + 1])
  }

  /** The text with each line indented by its counted level. */
  function CountedFrom(f: Format, lines: seq<string>, i: nat): string
    requires i < |lines|
    decreases |lines| - i
  {
    var line := LineIndent(StyleOf(f), CountedLevel(f.level, lines, i), lines[i]) + lines[i];
    if i == |lines| - 1 then line else line + "\n" + CountedFrom(f, lines, i + 1)
  }

  lemma {:induction false} CountOpeningNext(lines: seq<string>, i: nat)
    requires i < |lines|
    ensures CountOpening(lines[..i + 1]) == CountOpening(lines[..i]) + if OpensBlock(lines[i]) then 1 else 0
    decreases i
  {
    if i > 0 {
      CountOpeningNext(lines[1..], i - 1);
      assert lines[..i + 1][1..] == lines[1..][..i] && lines[..i][1..] == lines[1..][..i - 1];
    }
  }

  lemma {:induction false} CountClosingNext(lines: seq<string>, i: nat)
    requires i < |lines|
    ensures CountClosing(lines[..i + 1]) == CountClosing(lines[..i]) + if ClosesBlock(lines[i]) then 1 else 0
    decreases i
  {
    if i > 0 {
      CountClosingNext(lines[1..], i - 1);
      assert lines[..i + 1][1..] == lines[1..][..i] && lines[..i][1..] == lines[1..][..i - 1];
    }
  }

  /** The level at the start of line i. */
  function StartLevel(start: int, lines: seq<string>, i: nat): int
    requires i <= |lines|
  {
    start + CountOpening(lines[..i]) - CountClosing(lines[..i])
  }

  lemma {:induction false} StartLevelNext(start: int, lines: seq<string>, i: nat)
    requires i < |lines|
    ensures CountedLevel(start, lines, i) == ClosingLevel(StartLevel(start, lines, i), lines[i])
    ensures StartLevel(start, lines, i + 1) == LevelAfterLine(StartLevel(start, lines, i), lines[i])
  {
    CountOpeningNext(lines, i);
    CountClosingNext(lines, i);
  }

  lemma {:induction false} FormatsLinesFrom(f: Format, lines: seq<string>, i: nat)
    requires AtLineStart(f) && i < |lines| && forall j :: 0 <= j < |lines| ==> IsLine(lines[j])
    ensures Formatted(f.(level := StartLevel(f.level, lines, i)), Join(lines[i..])) == CountedFrom(f, lines, i)
    decreases |lines| - i
  {
    var g := f.(level := StartLevel(f.level, lines, i));
    StartLevelNext(f.level, lines, i);
    if i == |lines| - 1 {
      WholeLine(g, lines[i]);
    } else {
      LineAndEnd(g, lines[i]);
      assert lines[i..][1..] == lines[i + 1..];
      AfterConcat(g, lines[i] + "\n", Join(lines[i + 1..]));
      FormatsLinesFrom(f, lines, i + 1);
    }
  }

  /** From the start of a line, every text is formatted by counting braces. */
  lemma {:induction false} FormatsByCounting(f: Format, text: string)
    requires AtLineStart(f)
    ensures Formatted(f, text) == CountedFrom(f, Lines(text), 0)
  {
    JoinLines(text);
    FormatsLinesFrom(f, Lines(text), 0);
    assert Lines(text)[0..] == Lines(text);
    assert f.(level := StartLevel(f.level, Lines(text), 0)) == f;
  }

  // ---------- block-structured text ----------

  /** A plain line, or a block: arms such as "if (x) {" and "} else {" with their bodies, then a closing line. */
  datatype Item = Plain(line: string) | Block(arms: seq<Arm>, close: string)
  datatype Arm = Arm(line: string, body: seq<Item>)

  predicate WellFormed(item: Item)
    decreases item, 1
  {
    match item
    case Plain(line) => IsLine(line) && !OpensBlock(line) && !ClosesBlock(line)
    case Block(arms, close) =>
      && arms != [] && !ClosesBlock(arms[0].line)
      && (forall i :: 0 < i < |arms| ==> ClosesBlock(arms[i].line))
      && AllArmsWellFormed(arms)
      && IsLine(close) && ClosesBlock(close) && !OpensBlock(close)
  }

  predicate AllArmsWellFormed(arms: seq<Arm>)
    decreases arms, 0
  {
    forall arm :: arm in arms ==> ArmWellFormed(arm)
  }

  predicate ArmWellFormed(arm: Arm)
    decreases arm, 1
  {
    IsLine(arm.line) && OpensBlock(arm.line) && AllWellFormed(arm.body)
  }

  predicate AllWellFormed(items: seq<Item>)
    decreases items, 0
  {
    forall item :: item in items ==> WellFormed(item)
  }

  function Text(items: seq<Item>): string
    decreases items, 0
  {
    if items == [] then [] else ItemText(items[0]) + Text(items[1..])
  }

  function ItemText(item: Item): string
    decreases item, 1
  {
    match item
    case Plain(line) => line + "\n"
    case Block(arms, close) => ArmsText(arms) + (close + "\n")
  }

  function ArmsText(arms: seq<Arm>): string
    decreases arms, 0
  {
    if arms == [] then [] else ArmText(arms[0]) + ArmsText(arms[1..])
  }

  function ArmText(arm: Arm): string
    decreases arm, 1
  {
    arm.line + "\n" + Text(arm.body)
  }

  /** The same text with every line indented by its nesting depth. */
  function PrettyLine(style: Style, depth: int, line: string): string {
    LineIndent(style, depth, line) + line + "\n"
  }

  function Pretty(style: Style, depth: int, items: seq<Item>): string
    decreases items, 0
  {
    if items == [] then [] else PrettyItem(style, depth, items[0]) + Pretty(style, depth, items[1..])
  }

  function PrettyItem(style: Style, depth: int, item: Item): string
    decreases item, 1
  {
    match item
    case Plain(line) => PrettyLine(style, depth, line)
    case Block(arms, close) => PrettyArms(style, depth, arms) + PrettyLine(style, depth, close)
  }

  function PrettyArms(style: Style, depth: int, arms: seq<Arm>): string
    decreases arms, 0
  {
    if arms == [] then [] else PrettyArm(style, depth, arms[0]) + PrettyArms(style, depth, arms[1..])
  }

  function PrettyArm(style: Style, depth: int, arm: Arm): string
    decreases arm, 1
  {
    PrettyLine(style, depth, arm.line) + Pretty(style, depth + 1, arm.body)
  }

  /** Writing the text from f gives out, ends in g, and never takes the level below floor on the way. */
  ghost predicate Writes(f: Format, text: string, out: string, g: Format, floor: int) {
    && Formatted(f, text) == out && After(f, text) == g
    && forall n :: 0 <= n <= |text| ==> After(f, text[..n]).level >= floor
  }

  lemma {:induction false} WritesThen(f: Format, a: string, b: string, out: string, out': string, g: Format, h: Format, floor: int)
    requires Writes(f, a, out, g, floor) && Writes(g, b, out', h, floor)
    ensures Writes(f, a + b, out + out', h, floor)
  {
    AfterConcat(f, a, b);
    forall n | 0 <= n <= |a + b|
      ensures After(f, (a + b)[..n]).level >= floor
    {
      if n <= |a| {
        assert (a + b)[..n] == a[..n];
      } else {
        assert (a + b)[..n] == a + b[..n - |a|];
        AfterConcat(f, a, b[..n - |a|]);
      }
    }
  }

  lemma {:induction false} WritesLine(f: Format, line: string, floor: int)
    requires AtLineStart(f) && IsLine(line) && floor <= ClosingLevel(f.level, line)
    ensures Writes(f, line + "\n", PrettyLine(StyleOf(f), ClosingLevel(f.level, line), line),
                   f.(level := LevelAfterLine(f.level, line)), floor)
  {
    LineAndEnd(f, line);
    forall n | 0 <= n <= |line| + 1
      ensures After(f, (line + "\n")[..n]).level >= floor
    {
      if n == |line| + 1 {
        assert (line + "\n")[..n] == line + "\n";
      } else {
        assert (line + "\n")[..n] == line[..n];
        WholeLine(f, line[..n]);
      }
    }
  }

  lemma {:induction false} WritesItems(f: Format, items: seq<Item>)
    requires AtLineStart(f) && AllWellFormed(items)
    ensures Writes(f, Text(items), Pretty(StyleOf(f), f.level, items), f, f.level)
    decreases items, 0
  {
    if items != [] {
      WritesItem(f, items[0]);
      WritesItems(f, items[1..]);
      WritesThen(f, ItemText(items[0]), Text(items[1..]),
                 PrettyItem(StyleOf(f), f.level, items[0]), Pretty(StyleOf(f), f.level, items[1..]), f, f, f.level);
    }
  }

  lemma {:induction false} WritesItem(f: Format, item: Item)
    requires AtLineStart(f) && WellFormed(item)
    ensures Writes(f, ItemText(item), PrettyItem(StyleOf(f), f.level, item), f, f.level)
    decreases item, 1
  {
    match item {
      case Plain(line) =>
        WritesLine(f, line, f.level);
      case Block(arms, close) =>
        var inner := f.(level := f.level + 1);
        WritesArm(f, f.level, arms[0]);
        WritesArms(f, arms[1..]);
        WritesThen(f, ArmText(arms[0]), ArmsText(arms[1..]),
                   PrettyArm(StyleOf(f), f.level, arms[0]), PrettyArms(StyleOf(f), f.level, arms[1..]), inner, inner, f.level);
        WritesLine(inner, close, f.level);
        WritesThen(f, ArmsText(arms), close + "\n", PrettyArms(StyleOf(f), f.level, arms), PrettyLine(StyleOf(f), f.level, close),
                   inner, f, f.level);
    }
  }

  /** The later arms: each starts one level in, closes, and opens again. */
  lemma {:induction false} WritesArms(f: Format, arms: seq<Arm>)
    requires AtLineStart(f) && AllArmsWellFormed(arms)
    requires forall i :: 0 <= i < |arms| ==> ClosesBlock(arms[i].line)
    ensures Writes(f.(level := f.level + 1), ArmsText(arms), PrettyArms(StyleOf(f), f.level, arms), f.(level := f.level + 1), f.level)
    decreases arms, 0
  {
    if arms != [] {
      var inner := f.(level := f.level + 1);
      WritesArm(inner, f.level, arms[0]);
      WritesArms(f, arms[1..]);
      WritesThen(inner, ArmText(arms[0]), ArmsText(arms[1..]),
                 PrettyArm(StyleOf(f), f.level, arms[0]), PrettyArms(StyleOf(f), f.level, arms[1..]), inner, inner, f.level);
    }
  }

  /** An arm at a depth: its line is there, its body one further in. */
  lemma {:induction false} WritesArm(f: Format, depth: int, arm: Arm)
    requires AtLineStart(f) && ArmWellFormed(arm) && depth == ClosingLevel(f.level, arm.line)
    ensures Writes(f, ArmText(arm), PrettyArm(StyleOf(f), depth, arm), f.(level := depth + 1), depth)
    decreases arm, 1
  {
    var inner := f.(level := depth + 1);
    WritesLine(f, arm.line, depth);
    WritesItems(inner, arm.body);
    WritesThen(f, arm.line + "\n", Text(arm.body), PrettyLine(StyleOf(f), depth, arm.line), Pretty(StyleOf(f), depth + 1, arm.body),
               inner, inner, depth);
  }

  // ---------- recovering the input ----------

  /** The number of characters inserted before each character. */
  function Insertions(f: Format, text: string): (counts: seq<nat>)
    ensures |counts| == |text|
    decreases |text|
  {
    if text == [] then [] else [|IndentFor(f, text[0])|] + Insertions(Step(f, text[0]), text[1..])
  }

  /** Drops the counted characters before each one that is kept. */
  function Erase(counts: seq<nat>, out: string): string
    decreases |counts|
  {
    if counts == [] || |out| <= counts[0] then []
    else [out[counts[0]]] + Erase(counts[1..], out[counts[0] + 1..])
  }

  /** Nothing but insertion happens: erasing what was inserted gives the text back. */
  lemma {:induction false} EraseInsertions(f: Format, text: string)
    ensures Erase(Insertions(f, text), Formatted(f, text)) == text
    decreases |text|
  {
    if text != [] {
      var n, g := |IndentFor(f, text[0])|, Step(f, text[0]);
      EraseInsertions(g, text[1..]);
      assert Formatted(f, text)[n] == text[0] && Formatted(f, text)[n + 1..] == Formatted(g, text[1..]);
      assert Insertions(f, text)[1..] == Insertions(g, text[1..]);
    }
  }

  /** Removes the indentation characters at the start of every line, without knowing what was inserted. */
  function Strip(ch: char, text: string, atStart: bool): string
    decreases |text|
  {
    if text == [] then []
    else if atStart && text[0] == ch then Strip(ch, text[1..], true)
    else [text[0]] + Strip(ch, text[1..], text[0] == '\n')
  }

  lemma {:induction false} StripRepeat(ch: char, indent: string, text: string)
    requires forall i :: 0 <= i < |indent| ==> indent[i] == ch
    ensures Strip(ch, indent + text, true) == Strip(ch, text, true)
    decreases |indent|
  {
    if indent == [] {
      assert indent + text == text;
    } else {
      assert (indent + text)[1..] == indent[1..] + text;
      StripRepeat(ch, indent[1..], text);
    }
  }

  /** Formatting is invisible to whoever ignores leading indentation characters. */
  lemma {:induction false} StripFormatted(f: Format, text: string, atStart: bool)
    requires f.indentChar != '\n' && (f.newLine ==> atStart)
    ensures Strip(f.indentChar, Formatted(f, text), atStart) == Strip(f.indentChar, text, atStart)
    decreases |text|
  {
    if text != [] {
      var c, g := text[0], Step(f, text[0]);
      var rest := Formatted(g, text[1..]);
      var indent := IndentFor(f, c);
      assert Formatted(f, text) == indent + ([c] + rest);
      if indent != [] {
        StripRepeat(f.indentChar, indent, [c] + rest);
      } else {
        assert indent + ([c] + rest) == [c] + rest;
      }
      assert ([c] + rest)[1..] == rest;
      StripFormatted(g, text[1..], (atStart && c == f.indentChar) || c == '\n');
    }
  }

  /** Position i of the text begins a line. */
  predicate BeginsLine(text: string, i: nat, atStart: bool)
    requires i < |text|
  {
    if i == 0 then atStart else text[i - 1] == '\n'
  }

  predicate NoLineStartsWith(ch: char, text: string, atStart: bool) {
    forall i :: 0 <= i < |text| && BeginsLine(text, i, atStart) ==> text[i] != ch
  }

  lemma {:induction false} NoLineStartsSplit(ch: char, text: string, atStart: bool)
    requires text != []
    ensures NoLineStartsWith(ch, text, atStart) <==>
            !(atStart && text[0] == ch) && NoLineStartsWith(ch, text[1..], text[0] == '\n')
  {
    var rest, start := text[1..], text[0] == '\n';
    assert forall i :: 0 <= i < |rest| ==> BeginsLine(rest, i, start) == BeginsLine(text, i + 1, atStart);
    if NoLineStartsWith(ch, text, atStart) {
      assert BeginsLine(text, 0, atStart) == atStart;
      assert forall i :: 0 <= i < |rest| ==> rest[i] == text[i + 1];
    } else {
      var i :| 0 <= i < |text| && BeginsLine(text, i, atStart) && text[i] == ch;
      if i > 0 {
        assert BeginsLine(rest, i - 1, start) && rest[i - 1] == ch;
      }
    }
  }

  lemma {:induction false} StripShorter(ch: char, text: string, atStart: bool)
    ensures |Strip(ch, text, atStart)| <= |text|
    decreases |text|
  {
    if text != [] {
      StripShorter(ch, text[1..], true);
      StripShorter(ch, text[1..], text[0] == '\n');
    }
  }

  lemma {:induction false} StripChangesNothing(ch: char, text: string, atStart: bool)
    requires ch != '\n'
    ensures Strip(ch, text, atStart) == text <==> NoLineStartsWith(ch, text, atStart)
    decreases |text|
  {
    if text != [] {
      NoLineStartsSplit(ch, text, atStart);
      assert text == [text[0]] + text[1..];
      if atStart && text[0] == ch {
        StripShorter(ch, text[1..], true);
      } else {
        StripChangesNothing(ch, text[1..], text[0] == '\n');
      }
    }
  }

  /** Stripping leading indentation gives a text back exactly when none of its lines starts with it. */
  lemma {:induction false} StripRecovers(f: Format, text: string)
    requires f.indentChar != '\n'
    ensures Strip(f.indentChar, Formatted(f, text), true) == text <==> NoLineStartsWith(f.indentChar, text, true)
  {
    StripFormatted(f, text, true);
    StripChangesNothing(f.indentChar, text, true);
  }

  /** A line that starts with the indent character loses it: " x" is not recovered. */
  lemma {:induction false} StripLosesBlank(f: Format)
    requires f.indentChar == ' '
    ensures Strip(' ', Formatted(f, " x"), true) != " x"
  {
    StripRecovers(f, " x");
    assert BeginsLine(" x", 0, true) && " x"[0] == ' ';
  }
}
