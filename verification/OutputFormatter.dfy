/**
  The indenting stream buffer of the code generator: a machine over single characters that
  keeps an indentation level, whether a line has just begun and whether the last character
  was an opening brace, and that writes to a sink which may fail at any call.
 */
module OutputFormatter {
  import opened Sequences

  datatype Format = Format(indentChar: char, indentSize: int, level: int, newLine: bool, openBrace: bool)

  /** The argument of overflow: a character, or the end-of-file value. */
  datatype CharOrEof = Eof | Char(value: char)

  // ---------- the machine as a function of the text ----------

  function Repeat(c: char, n: int): (s: string)
    ensures |s| == (if n <= 0 then 0 else n)
    ensures forall i :: 0 <= i < |s| ==> s[i] == c
  {
    Fill(c, if n <= 0 then 0 else n)
  }

  predicate Indents(f: Format, c: char) {
    f.newLine && c != '\n' && c != '#'
  }

  /** The level once a closing brace at the start of a line has been taken into account. */
  function LevelFor(f: Format, c: char): int {
    if Indents(f, c) && c == '}' then f.level - 1 else f.level
  }

  function IndentFor(f: Format, c: char): (s: string) {
    if Indents(f, c) then Repeat(f.indentChar, LevelFor(f, c) * f.indentSize) else []
  }

  function Step(f: Format, c: char): Format {
    f.(level := LevelFor(f, c) + (if c == '\n' && f.openBrace then 1 else 0),
       newLine := c == '\n',
       openBrace := c == '{')
  }

  function After(f: Format, text: string): Format
    decreases |text|
  {
    if text == [] then f else After(Step(f, text[0]), text[1..])
  }

  function Formatted(f: Format, text: string): string
    decreases |text|
  {
    if text == [] then [] else IndentFor(f, text[0]) + [text[0]] + Formatted(Step(f, text[0]), text[1..])
  }

  // ---------- the stream buffer and its sink ----------

  /** The contained buffer: the n-th call of Sputc fails if fails(n). */
  class Sink {
    const fails: nat -> bool
    var calls: nat
    var out: string

    constructor (fails: nat -> bool)
      ensures this.fails == fails && calls == 0 && out == []
    {
      this.fails, calls, out := fails, 0, [];
    }

    ghost function View(): Progress
      reads this
    {
      Progress(out, calls)
    }

    method Sputc(c: char) returns (ok: bool)
      modifies this
      ensures ok == !fails(old(calls)) && calls == old(calls) + 1
      ensures out == if ok then old(out) + [c] else old(out)
    {
      ok := !fails(calls);
      calls := calls + 1;
      if ok {
        out := out + [c];
      }
    }
  }

  /** What a sink has received, and how often it was called. */
  datatype Progress = Progress(out: string, calls: nat)

  /** Of the characters s all reached the sink, or the n before the first failing call. */
  ghost predicate Delivered(fails: nat -> bool, before: Progress, after: Progress, s: string, n: nat, ok: bool) {
    && n <= |s| && (ok <==> n == |s|)
    && after == Progress(before.out + s[..n], before.calls + n + (if ok then 0 else 1))
    && (forall k :: before.calls <= k < before.calls + n ==> !fails(k))
    && (!ok ==> fails(before.calls + n))
  }

  lemma {:induction false} DeliveredNext(fails: nat -> bool, a: Progress, b: Progress, c: Progress,
                      s: string, t: string, n: nat, m: nat, ok: bool)
    requires Delivered(fails, a, b, s, n, true) && Delivered(fails, b, c, t, m, ok)
    ensures Delivered(fails, a, c, s + t, n + m, ok)
  {
    assert (s + t)[..n + m] == s + t[..m] && s[..n] == s;
  }

  lemma {:induction false} DeliveredCut(fails: nat -> bool, a: Progress, b: Progress, s: string, t: string, n: nat)
    requires Delivered(fails, a, b, s, n, false)
    ensures Delivered(fails, a, b, s + t, n, false)
  {
    assert (s + t)[..n] == s[..n];
  }

  /** The text a has been written from state f and sink a; the outcome of writing b next. */
  lemma {:induction false} WriteNext(fails: nat -> bool, p: Progress, q: Progress, r: Progress, f: Format,
                  a: string, b: string, n: nat, m: nat, ok: bool)
    requires Delivered(fails, p, q, Formatted(f, a), n, true)
    requires Delivered(fails, q, r, Formatted(After(f, a), b), m, ok)
    ensures Delivered(fails, p, r, Formatted(f, a + b), n + m, ok)
    ensures After(f, a + b) == After(After(f, a), b)
  {
    AfterConcat(f, a, b);
    DeliveredNext(fails, p, q, r, Formatted(f, a), Formatted(After(f, a), b), n, m, ok);
  }

  lemma {:induction false} WriteCut(fails: nat -> bool, p: Progress, q: Progress, f: Format, a: string, b: string, n: nat)
    requires Delivered(fails, p, q, Formatted(f, a), n, false)
    ensures Delivered(fails, p, q, Formatted(f, a + b), n, false)
  {
    AfterConcat(f, a, b);
    DeliveredCut(fails, p, q, Formatted(f, a), Formatted(After(f, a), b), n);
  }

  lemma {:induction false} OneCharacter(f: Format, c: char)
    ensures Formatted(f, [c]) == IndentFor(f, c) + [c] && After(f, [c]) == Step(f, c)
  {
    assert [c][1..] == [];
    assert Formatted(f, [c]) == IndentFor(f, c) + [c] + Formatted(Step(f, c), []);
  }

  class OutputFormatStreamBuf {
    const buf: Sink
    var indentChar: char
    var indentSize: int
    var indentLevel: int
    var newLine: bool
    var openBrace: bool

    ghost function State(): Format
      reads this
    {
      Format(indentChar, indentSize, indentLevel, newLine, openBrace)
    }

    constructor (buf: Sink, indentChar: char, indentSize: int)
      ensures this.buf == buf && State() == Format(indentChar, indentSize, 0, true, false)
    {
      this.buf, this.indentChar, this.indentSize := buf, indentChar, indentSize;
      indentLevel, newLine, openBrace := 0, true, false;
    }

    method SetIndentChar(c: char)
      modifies this
      ensures State() == old(State()).(indentChar := c)
    {
      indentChar := c;
    }

    method SetIndentSize(size: int)
      modifies this
      ensures State() == old(State()).(indentSize := size)
    {
      indentSize := size;
    }

    method IncreaseIndent()
      modifies this
      ensures State() == old(State()).(level := old(indentLevel) + 1)
    {
      indentLevel := indentLevel + 1;
    }

    method DecreaseIndent()
      modifies this
      ensures State() == old(State()).(level := old(indentLevel) - 1)
    {
      indentLevel := indentLevel - 1;
    }

    method SetIndent(level: int)
      modifies this
      ensures State() == old(State()).(level := level)
    {
      indentLevel := level;
    }

    /** The loop that writes the indentation. */
    method WriteIndent(count: int) returns (ok: bool, ghost n: nat)
      modifies buf
      ensures Delivered(buf.fails, old(buf.View()), buf.View(), Repeat(indentChar, count), n, ok)
    {
      n := 0;
      ghost var indent := Repeat(indentChar, count);
      var i := 0;
      while i < count
        invariant 0 <= i && n == i <= |indent|
        invariant buf.out == old(buf.out) + indent[..n] && buf.calls == old(buf.calls) + n
        invariant forall k :: old(buf.calls) <= k < old(buf.calls) + n ==> !buf.fails(k)
      {
        assert indent[..n + 1] == indent[..n] + [indentChar];
        ok := buf.Sputc(indentChar);
        if !ok {
          return;
        }
        i, n := i + 1, n + 1;
      }
      ok := true;
    }

    /** The part of overflow before the character itself; a failure has only adjusted the level. */
    method BeginLine(ch: char) returns (ok: bool, ghost n: nat)
      modifies this, buf
      ensures Delivered(buf.fails, old(buf.View()), buf.View(), IndentFor(old(State()), ch), n, ok)
      ensures State() == old(State()).(level := LevelFor(old(State()), ch),
                                       newLine := old(newLine) && !(ok && ch != '\n'))
    {
      ok, n := true, 0;
      if newLine && ch != '\n' {
        if ch != '#' {
          if ch == '}' {
            indentLevel := indentLevel - 1;
          }
          ok, n := WriteIndent(indentLevel * indentSize);
          if !ok {
            return;
          }
        }
        newLine := false;
      }
    }

    /** If the indentation fails only the level has changed; otherwise the step is complete. */
    method Overflow(c: CharOrEof) returns (ok: bool, ghost n: nat)
      modifies this, buf
      ensures c.Eof? ==> ok && State() == old(State()) && Delivered(buf.fails, old(buf.View()), buf.View(), [], n, ok)
      ensures c.Char? ==> Delivered(buf.fails, old(buf.View()), buf.View(), IndentFor(old(State()), c.value) + [c.value], n, ok)
      ensures c.Char? && n >= |IndentFor(old(State()), c.value)| ==> State() == Step(old(State()), c.value)
      ensures c.Char? && n < |IndentFor(old(State()), c.value)| ==>
                State() == old(State()).(level := LevelFor(old(State()), c.value))
    {
      n := 0;
      if c.Eof? {
        return true, 0;
      }
      var ch := c.value;
      ghost var indent := IndentFor(State(), ch);
      ok, n := BeginLine(ch);
      if !ok {
        DeliveredCut(buf.fails, old(buf.View()), buf.View(), indent, [ch], n);
        return;
      }
      if ch == '\n' {
        newLine := true;
        if openBrace {
          indentLevel := indentLevel + 1;
        }
      }
      if ch == '{' {
        openBrace := true;
      } else {
        openBrace := false;
      }
      ghost var before := buf.View();
      ok := buf.Sputc(ch);
      ghost var m := if ok then 1 else 0;
      DeliveredNext(buf.fails, old(buf.View()), before, buf.View(), indent, [ch], n, m, ok);
      n := n + m;
    }

    /** Writing a text, as a stream does: one character at a time until one fails. */
    method Write(text: string) returns (ok: bool, ghost n: nat)
      modifies this, buf
      ensures Delivered(buf.fails, old(buf.View()), buf.View(), Formatted(old(State()), text), n, ok)
      ensures ok ==> State() == After(old(State()), text)
    {
      ok, n := true, 0;
      ghost var start := State();
      var i := 0;
      while i < |text|
        invariant 0 <= i <= |text|
        invariant ok && Delivered(buf.fails, old(buf.View()), buf.View(), Formatted(start, text[..i]), n, ok)
        invariant State() == After(start, text[..i])
      {
        TakeNext(text, i);
        OneCharacter(After(start, text[..i]), text[i]);
        ghost var before, m := buf.View(), 0;
        ok, m := Overflow(Char(text[i]));
        WriteNext(buf.fails, old(buf.View()), before, buf.View(), start, text[..i], [text[i]], n, m, ok);
        n := n + m;
        i := i + 1;
        if !ok {
          WriteCut(buf.fails, old(buf.View()), buf.View(), start, text[..i], text[i..], n);
          return;
        }
      }
      assert text[..i] == text;
    }
  }

  function Concat(chunks: seq<string>): string {
    if chunks == [] then [] else chunks[0] + Concat(chunks[1..])
  }

  lemma {:induction false} ConcatSplit(chunks: seq<string>, i: nat)
    requires i <= |chunks|
    ensures Concat(chunks) == Concat(chunks[..i]) + Concat(chunks[i..])
    decreases |chunks|
  {
    if i > 0 {
      ConcatSplit(chunks[1..], i - 1);
      assert chunks[..i][1..] == chunks[1..][..i - 1] && chunks[1..][i - 1..] == chunks[i..];
    }
  }

  lemma {:induction false} ConcatNext(chunks: seq<string>, i: nat)
    requires i < |chunks|
    ensures Concat(chunks[..i + 1]) == Concat(chunks[..i]) + chunks[i]
  {
    ConcatSplit(chunks[..i + 1], i);
    assert chunks[..i + 1][..i] == chunks[..i] && chunks[..i + 1][i..] == [chunks[i]];
    assert Concat([chunks[i]]) == chunks[i] + [];
  }

  /** The output does not depend on how the text is cut into writes, and a failure cuts it short. */
  method WriteAll(stream: OutputFormatStreamBuf, chunks: seq<string>) returns (ok: bool, ghost n: nat)
    modifies stream, stream.buf
    ensures Delivered(stream.buf.fails, old(stream.buf.View()), stream.buf.View(), Formatted(old(stream.State()), Concat(chunks)), n, ok)
    ensures ok ==> stream.State() == After(old(stream.State()), Concat(chunks))
  {
    ok, n := true, 0;
    ghost var start := stream.State();
    var i := 0;
    while i < |chunks|
      invariant 0 <= i <= |chunks|
      invariant ok && Delivered(stream.buf.fails, old(stream.buf.View()), stream.buf.View(), Formatted(start, Concat(chunks[..i])), n, ok)
      invariant stream.State() == After(start, Concat(chunks[..i]))
    {
      ConcatNext(chunks, i);
      ghost var before, m := stream.buf.View(), 0;
      ok, m := stream.Write(chunks[i]);
      WriteNext(stream.buf.fails, old(stream.buf.View()), before, stream.buf.View(), start,
                Concat(chunks[..i]), chunks[i], n, m, ok);
      n := n + m;
      i := i + 1;
      if !ok {
        ConcatSplit(chunks, i);
        WriteCut(stream.buf.fails, old(stream.buf.View()), stream.buf.View(), start,
                 Concat(chunks[..i]), Concat(chunks[i..]), n);
        return;
      }
    }
    assert chunks[..i] == chunks;
  }

  lemma {:induction false} AfterConcat(f: Format, a: string, b: string)
    ensures After(f, a + b) == After(After(f, a), b)
    ensures Formatted(f, a + b) == Formatted(f, a) + Formatted(After(f, a), b)
    decreases |a|
  {
    if a == [] {
      assert a + b == b;
    } else {
      assert (a + b)[0] == a[0] && (a + b)[1..] == a[1..] + b;
      AfterConcat(Step(f, a[0]), a[1..], b);
    }
  }
}
