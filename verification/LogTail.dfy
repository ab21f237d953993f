/** Reading the end of a log file backwards in chunks, from `lib/admin/admin-logs.js`. */
module LogTail {
  import opened Options

  /** `text.split("\n")`. */
  function Split(text: string): (lines: seq<string>)
    ensures |lines| >= 1
  {
    if text == "" then [""]
    else
      var rest := Split(text[1..]);
      if text[0] == '\n' then [""] + rest else [[text[0]] + rest[0]] + rest[1..]
  }

  /** `lines.filter(l => l.length > 0)`. */
  function NonEmpty(lines: seq<string>): seq<string> {
    if lines == [] then []
    else (if |lines[0]| > 0 then [lines[0]] else []) + NonEmpty(lines[1..])
  }

  /** `lines.slice(-n)` for a positive `n`. */
  function Last<T>(lines: seq<T>, n: nat): seq<T> {
    if |lines| > n then lines[|lines| - n..] else lines
  }

  function Tail(rawTail: Option<int>): (tail: nat)
    ensures 1 <= tail <= 1000
  {
    var asked := if rawTail.None? then 200 else rawTail.value;
    if asked < 1 then 1 else if asked > 1000 then 1000 else asked
  }

  /** One recognised line, with the unrecognised ones that follow it added to its message. */
  datatype Entry = Entry(timestamp: string, level: string, message: string)

  predicate IsDigit(c: char) {
    '0' <= c <= '9'
  }

  predicate IsWord(c: char) {
    IsDigit(c) || 'a' <= c <= 'z' || 'A' <= c <= 'Z' || c == '_'
  }

  predicate EndsLine(c: char) {
    c == '\n' || c == '\r' || c == '\U{2028}' || c == '\U{2029}'
  }

  /** `\d{4}-\d{2}-\d{2} \d{2}:\d{2}:\d{2}`. */
  predicate IsTimestamp(s: string) {
    && |s| == 19
    && s[4] == '-' && s[7] == '-' && s[10] == ' ' && s[13] == ':' && s[16] == ':'
    && forall i :: 0 <= i < 19 && i != 4 && i != 7 && i != 10 && i != 13 && i != 16 ==> IsDigit(s[i])
  }

  /** The length of the longest prefix of word characters. */
  function WordLength(s: string): (n: nat)
    ensures n <= |s| && (forall i :: 0 <= i < n ==> IsWord(s[i])) && (n < |s| ==> !IsWord(s[n]))
  {
    if s != "" && IsWord(s[0]) then 1 + WordLength(s[1..]) else 0
  }

  /** `LOG_LINE_RE`. */
  function Match(line: string): Option<Entry> {
    if |line| < 21 || !IsTimestamp(line[..19]) || line[19..21] != " [" then None
    else
      var rest := line[21..];
      var n := WordLength(rest);
      if n == 0 || !("]: " <= rest[n..]) || exists i :: n + 3 <= i < |rest| && EndsLine(rest[i]) then None
      else Some(Entry(line[..19], rest[..n], rest[n + 3..]))
  }

  /** The line, or lines, an entry was read from. */
  function Render(e: Entry): string {
    e.timestamp + " [" + e.level + "]: " + e.message
  }

  function AddLine(e: Entry, line: string): Entry {
    e.(message := e.message + "\n" + line)
  }

  function Parsed(lines: seq<string>): seq<Entry> {
    if lines == [] then []
    else
      var line := lines[|lines| - 1];
      var before := Parsed(lines[..|lines| - 1]);
      var m := Match(line);
      if m.Some? then before + [m.value]
      else if before != [] then before[|before| - 1 := AddLine(before[|before| - 1], line)]
      else before
  }

  /** The last lines of the file, read from its end in chunks until enough of them are there. */
  method ReadTail(file: string, rawTail: Option<int>, chunk: nat) returns (tailLines: seq<string>)
    requires chunk > 0
    ensures tailLines == Last(NonEmpty(Split(file)), Tail(rawTail))
  {
    hide Split, NonEmpty, Last, Tail;
    var tail := Tail(rawTail);
    var collected := "";
    var pos := |file|;
    while pos > 0
      invariant 0 <= pos <= |file| && collected == file[pos..]
    {
      var readSize := if chunk < pos then chunk else pos;
      pos := pos - readSize;
      var buf := file[pos..pos + readSize];
      collected := buf + collected;
      var lineCount := |NonEmpty(Split(collected))|;
      if lineCount >= tail + 10 {
        break;
      }
    }
    assert file == file[..pos] + collected;
    if pos > 0 {
      SuffixEnough(file[..pos], collected, tail);
    }
    var rawLines := NonEmpty(Split(collected));
    tailLines := Last(rawLines, tail);
  }

  /** The parsing loop: unrecognised lines extend the message before them. */
  method ParseLines(tailLines: seq<string>) returns (parsed: seq<Entry>)
    ensures parsed == Parsed(tailLines)
  {
    hide Match;
    parsed := [];
    for i := 0 to |tailLines|
      invariant parsed == Parsed(tailLines[..i])
    {
      var line := tailLines[i];
      assert tailLines[..i + 1][..i] == tailLines[..i];
      var m := Match(line);
      if m.Some? {
        parsed := parsed + [m.value];
      } else if |parsed| > 0 {
        var entry := parsed[|parsed| - 1];
        parsed := parsed[|parsed| - 1 := AddLine(entry, line)];
      }
    }
    assert tailLines[..|tailLines|] == tailLines;
  }

  /* ---------- Splitting ---------- */

  /** `lines.join("\n")`. */
  function Join(lines: seq<string>): string {
    if lines == [] then ""
    else if |lines| == 1 then lines[0]
    else Join(lines[..|lines| - 1]) + "\n" + lines[|lines| - 1]
  }

  lemma {:induction false} JoinFirst(line: string, rest: seq<string>)
    requires rest != []
    ensures Join([line] + rest) == line + "\n" + Join(rest)
  {
    var lines, n := [line] + rest, |rest| - 1;
    assert lines[..n + 1] == [line] + rest[..n];
    if n > 0 {
      JoinFirst(line, rest[..n]);
    }
  }

  lemma JoinHead(c: char, lines: seq<string>)
    requires lines != []
    ensures Join([[c] + lines[0]] + lines[1..]) == [c] + Join(lines)
  {
    if |lines| > 1 {
      assert lines == [lines[0]] + lines[1..];
      JoinFirst(lines[0], lines[1..]);
      JoinFirst([c] + lines[0], lines[1..]);
    }
  }

  /** Splitting cuts the text at its line breaks and loses nothing. */
  lemma {:induction false} JoinOfSplit(text: string)
    ensures Join(Split(text)) == text
    ensures forall line :: line in Split(text) ==> '\n' !in line
  {
    hide Join;
    if text == "" {
      assert Join([""]) == "" by { JoinOne(""); }
    } else {
      var rest := Split(text[1..]);
      JoinOfSplit(text[1..]);
      assert text == [text[0]] + text[1..];
      assert rest[0] in rest;
      if text[0] == '\n' {
        JoinFirst("", rest);
      } else {
        JoinHead(text[0], rest);
      }
    }
  }

  lemma JoinOne(line: string)
    ensures Join([line]) == line
  {
  }

  /** The lines of two texts put together: the last line of the one runs on into the first of the other. */
  function Glue(before: seq<string>, after: seq<string>): (lines: seq<string>)
    requires before != [] && after != []
    ensures lines != []
  {
    var k := |before| - 1;
    before[..k] + [before[k] + after[0]] + after[1..]
  }

  lemma GlueAssociative(x: seq<string>, y: seq<string>, z: seq<string>)
    requires x != [] && y != [] && z != []
    ensures Glue(Glue(x, y), z) == Glue(x, Glue(y, z))
  {
    var i, j := |x| - 1, |y| - 1;
    if j == 0 {
      assert (x[i] + y[0]) + z[0] == x[i] + (y[0] + z[0]);
      assert Glue(x, y) == x[..i] + [x[i] + y[0]];
      assert Glue(y, z) == [y[0] + z[0]] + z[1..];
    } else {
      var middle := y[1..j];
      assert Glue(x, y) == (x[..i] + [x[i] + y[0]] + middle) + [y[j]];
      assert Glue(y, z) == [y[0]] + (middle + [y[j] + z[0]] + z[1..]);
    }
  }

  function SplitChar(c: char): (lines: seq<string>)
    ensures lines != []
  {
    if c == '\n' then ["", ""] else [[c]]
  }

  lemma SplitCons(c: char, text: string)
    ensures Split([c] + text) == Glue(SplitChar(c), Split(text))
  {
    assert ([c] + text)[1..] == text;
    var rest := Split(text);
    assert Split([c] + text) == if c == '\n' then [""] + rest else [[c] + rest[0]] + rest[1..];
    hide Split;
    assert "" + rest[0] == rest[0];
    assert rest == [rest[0]] + rest[1..];
  }

  lemma GlueNothing(lines: seq<string>)
    requires lines != []
    ensures Glue([""], lines) == lines
  {
    assert "" + lines[0] == lines[0];
  }

  /** Splitting a text in two parts splits it into the lines of both, glued together. */
  lemma {:induction false} SplitConcat(a: string, b: string)
    ensures Split(a + b) == Glue(Split(a), Split(b))
  {
    assert Split("") == [""];
    hide Split, Glue, SplitChar;
    GlueNothing(Split(b));
    if a == "" {
      assert a + b == b;
    } else {
      var c, rest := a[0], a[1..];
      SplitConcat(rest, b);
      assert a + b == [c] + (rest + b) && a == [c] + rest;
      SplitCons(c, rest + b);
      SplitCons(c, rest);
      GlueAssociative(SplitChar(c), Split(rest), Split(b));
    }
  }

  lemma {:induction false} SplitLine(line: string)
    requires '\n' !in line
    ensures Split(line) == [line]
  {
    if line != "" {
      SplitLine(line[1..]);
      assert [line[0]] + line[1..] == line;
      assert [line] + [] == [line];
    }
  }

  /** Lines without line breaks come back from their joined text. */
  lemma {:induction false} SplitOfJoin(lines: seq<string>)
    requires lines != [] && forall line :: line in lines ==> '\n' !in line
    ensures Split(Join(lines)) == lines
  {
    hide Split, Join, Glue, SplitChar;
    assert lines == [lines[0]] + lines[1..];
    SplitLine(lines[0]);
    if |lines| == 1 {
      assert lines == [lines[0]];
      JoinOne(lines[0]);
    } else {
      var rest := lines[1..];
      SplitOfJoin(rest);
      JoinFirst(lines[0], rest);
      assert lines[0] + "\n" + Join(rest) == lines[0] + (['\n'] + Join(rest));
      SplitConcat(lines[0], ['\n'] + Join(rest));
      SplitCons('\n', Join(rest));
      GlueBreak(lines[0], rest);
    }
  }

  lemma GlueBreak(line: string, rest: seq<string>)
    requires rest != []
    ensures Glue([line], Glue(SplitChar('\n'), rest)) == [line] + rest
  {
    assert line + "" == line && "" + rest[0] == rest[0];
  }

  lemma {:induction false} NonEmptyConcat(a: seq<string>, b: seq<string>)
    ensures NonEmpty(a + b) == NonEmpty(a) + NonEmpty(b)
  {
    if a == [] {
      assert a + b == b;
    } else {
      assert (a + b)[1..] == a[1..] + b;
      NonEmptyConcat(a[1..], b);
    }
  }

  /** Once a suffix holds more than `tail` lines, the rest of the file does not matter. */
  lemma SuffixEnough(before: string, suffix: string, tail: nat)
    requires |NonEmpty(Split(suffix))| >= tail + 1
    ensures Last(NonEmpty(Split(before + suffix)), tail) == Last(NonEmpty(Split(suffix)), tail)
  {
    hide Split, NonEmpty, Last;
    SplitConcat(before, suffix);
    var lines, after := Split(before), Split(suffix);
    var k := |lines| - 1;
    var head, rest := lines[..k] + [lines[k] + after[0]], after[1..];
    NonEmptyConcat(head, rest);
    assert after == [after[0]] + rest;
    NonEmptyConcat([after[0]], rest);
    AtMostOne(after[0]);
    LastOfEnough(NonEmpty(head), NonEmpty(rest), tail);
    LastOfEnough(NonEmpty([after[0]]), NonEmpty(rest), tail);
  }

  lemma LastOfEnough(before: seq<string>, lines: seq<string>, n: nat)
    requires |lines| >= n
    ensures Last(before + lines, n) == Last(lines, n)
  {
    if before == [] {
      assert before + lines == lines;
    }
  }

  lemma AtMostOne(line: string)
    ensures |NonEmpty([line])| <= 1
  {
  }

  /* ---------- Parsing ---------- */

  function RenderAll(es: seq<Entry>): (lines: seq<string>)
    ensures |lines| == |es| && forall i :: 0 <= i < |es| ==> lines[i] == Render(es[i])
  {
    if es == [] then [] else RenderAll(es[..|es| - 1]) + [Render(es[|es| - 1])]
  }

  lemma MatchRenders(line: string)
    requires Match(line).Some?
    ensures Render(Match(line).value) == line
  {
    var rest := line[21..];
    var n := WordLength(rest);
    assert line == line[..19] + line[19..21] + rest;
    assert rest == rest[..n] + "]: " + rest[n + 3..];
  }

  function Matches(lines: seq<string>): nat {
    if lines == [] then 0 else Matches(lines[..|lines| - 1]) + if Match(lines[|lines| - 1]).Some? then 1 else 0
  }

  /** The entries hold, in order, exactly the text from the first recognised line on, one entry per recognised line. */
  lemma {:induction false} ParsedText(lines: seq<string>, first: nat)
    requires first <= |lines| && forall i :: 0 <= i < first ==> Match(lines[i]).None?
    requires first < |lines| ==> Match(lines[first]).Some?
    ensures Parsed(lines) == [] <==> first == |lines|
    ensures Join(RenderAll(Parsed(lines))) == Join(lines[first..])
    ensures |Parsed(lines)| == Matches(lines)
  {
    hide Match, Render, AddLine, Join;
    if lines == [] {
      assert lines[first..] == [];
    } else {
      var n := |lines| - 1;
      var line, init := lines[n], lines[..n];
      var before := Parsed(init);
      if first <= n {
        ParsedText(init, first);
        assert lines[first..] == init[first..] + [line];
        if Match(line).Some? {
          MatchRenders(line);
          assert RenderAll(Parsed(lines)) == RenderAll(before) + [line];
          JoinLast(RenderAll(before), line);
          JoinLast(init[first..], line);
        } else {
          ContinuedText(before, line);
          JoinLast(init[first..], line);
        }
      } else {
        ParsedText(init, n);
        assert init[n..] == [] && lines[first..] == [];
        assert Match(line).None? && Parsed(lines) == before;
      }
    }
  }

  lemma JoinLast(lines: seq<string>, line: string)
    ensures Join(lines + [line]) == if lines == [] then line else Join(lines) + "\n" + line
  {
    assert (lines + [line])[..|lines|] == lines;
  }

  lemma ContinuedText(es: seq<Entry>, line: string)
    requires es != []
    ensures var k := |es| - 1; Join(RenderAll(es[k := AddLine(es[k], line)])) == Join(RenderAll(es)) + "\n" + line
  {
    hide *;
    var k := |es| - 1;
    var longer := es[k := AddLine(es[k], line)];
    assert longer[..k] == es[..k];
    RenderLast(es);
    RenderLast(longer);
    AddLineRenders(es[k], line);
    JoinLast(RenderAll(es[..k]), Render(es[k]));
    JoinLast(RenderAll(es[..k]), Render(longer[k]));
    if es[..k] != [] {
      assert Join(RenderAll(es[..k])) + "\n" + (Render(es[k]) + "\n" + line)
          == Join(RenderAll(es[..k])) + "\n" + Render(es[k]) + "\n" + line;
    }
  }

  lemma RenderLast(es: seq<Entry>)
    requires es != []
    ensures var k := |es| - 1; RenderAll(es) == RenderAll(es[..k]) + [Render(es[k])]
  {
  }

  lemma AddLineRenders(e: Entry, line: string)
    ensures Render(AddLine(e, line)) == Render(e) + "\n" + line
  {
    var head := e.timestamp + " [" + e.level + "]: ";
    assert head + (e.message + "\n" + line) == head + e.message + "\n" + line;
  }
}
