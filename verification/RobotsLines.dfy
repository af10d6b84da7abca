/** internal/robots/robots.go, Parse: the lines of a file as the scanner gives them, against section 2.2 of
    RFC 9309, for which a carriage return, a line feed or both end a line. */
module RobotsLines {
  import opened RobotsPattern
  import opened RobotsParse

  predicate IsEOL(c: char) {
    c == '\r' || c == '\n'
  }

  /** The line that the content starts with, up to its end. */
  function LineEnd(content: string): (n: nat)
    ensures n <= |content| && (n < |content| ==> IsEOL(content[n]))
    ensures forall k :: 0 <= k < n ==> !IsEOL(content[k])
  {
    if content == [] || IsEOL(content[0]) then 0 else 1 + LineEnd(content[1..])
  }

  /** The lines of the RFC. Between the carriage return and the line feed of one end it gives an empty line. */
  function RfcLines(content: string): seq<string>
    decreases |content|
  {
    var n := LineEnd(content);
    [content[..n]] + (if n < |content| then RfcLines(content[n + 1..]) else [])
  }

  function WithoutEmpty(lines: seq<string>): seq<string> {
    if lines == [] then [] else Nonempty(lines[0]) + WithoutEmpty(lines[1..])
  }

  /** The characters of the content that are in lines. */
  function Strip(content: string): (s: string)
    ensures '\r' !in s && '\n' !in s
  {
    if content == [] then [] else Kept(content[0]) + Strip(content[1..])
  }

  function Kept(c: char): string {
    if IsEOL(c) then [] else [c]
  }

  /** Each carriage return ends a line, before a line feed or at the end of the file; and each line fits the
      buffer of the scanner, or nothing follows. */
  predicate PlainLines(content: string)
    decreases |content|
  {
    content == [] ||
    var n := IndexOf(content, '\n');
    if n >= MAX_LINE then Strip(content) == []
    else
      && '\r' !in content[..if n > 0 then n - 1 else 0]
      && (n < |content| ==> PlainLines(content[n + 1..]))
  }

  // ----------------------------------------------------- the lines agree

  function Nonempty(line: string): seq<string> {
    if line == [] then [] else [line]
  }

  lemma {:induction false} WithoutEmptyAdds(a: seq<string>, b: seq<string>)
    ensures WithoutEmpty(a + b) == WithoutEmpty(a) + WithoutEmpty(b)
  {
    if a == [] {
      assert a + b == b;
    } else {
      var first := Nonempty(a[0]);
      WithoutEmptyAdds(a[1..], b);
      assert (a + b)[1..] == a[1..] + b && (a + b)[0] == a[0];
      assert first + WithoutEmpty(a[1..]) + WithoutEmpty(b) == first + (WithoutEmpty(a[1..]) + WithoutEmpty(b));
    }
  }

  lemma OneLine(line: string, lines: seq<string>)
    ensures WithoutEmpty([line] + lines) == Nonempty(line) + WithoutEmpty(lines)
  {
    assert ([line] + lines)[1..] == lines;
  }

  lemma {:induction false} FirstEnd(line: string, rest: string)
    requires IsLine(line)
    requires rest == [] || IsEOL(rest[0])
    ensures LineEnd(line + rest) == |line|
  {
    if line == [] {
      assert line + rest == rest;
    } else {
      FirstEnd(line[1..], rest);
      assert (line + rest)[1..] == line[1..] + rest;
    }
  }

  /** A line of the RFC and its end. */
  lemma RfcLine(line: string, rest: string)
    requires IsLine(line)
    requires rest == [] || IsEOL(rest[0])
    ensures RfcLines(line + rest) == [line] + if rest == [] then [] else RfcLines(rest[1..])
  {
    var all := line + rest;
    FirstEnd(line, rest);
    assert all[..|line|] == line;
    if rest != [] {
      assert all[|line| + 1..] == rest[1..];
    }
  }

  /** A line feed or carriage return with nothing before it gives no line. */
  lemma EndOnly(c: char, rest: string)
    requires IsEOL(c)
    ensures WithoutEmpty(RfcLines([c] + rest)) == WithoutEmpty(RfcLines(rest))
  {
    var t := [c] + rest;
    RfcLine([], t);
    assert [] + t == t && t[1..] == rest;
    OneLine([], RfcLines(rest));
  }

  /** What ends a line for the scanner: nothing, a return or both at the end of the file, a line feed or both
      before more. */
  predicate IsEnd(end: string, rest: string) {
    || ((end == "" || end == "\r") && rest == [])
    || end == "\n" || end == "\r\n"
  }

  predicate IsLine(line: string) {
    forall k :: 0 <= k < |line| ==> !IsEOL(line[k])
  }

  /** The first line of the scanner, its end and what follows. */
  function FirstLine(content: string): (string, string, string)
  {
    var n := IndexOf(content, '\n');
    var m := if n > 0 && content[n - 1] == '\r' then n - 1 else n;
    var e := if n < |content| then n + 1 else n;
    (content[..m], content[m..e], content[e..])
  }

  lemma CutTwice(s: string, m: nat, e: nat)
    requires m <= e <= |s|
    ensures s == s[..m] + (s[m..e] + s[e..])
  {
  }

  lemma FirstLineEnds(content: string)
    ensures var (line, end, rest) := FirstLine(content); content == line + (end + rest) && IsEnd(end, rest)
    ensures content != [] ==> |FirstLine(content).2| < |content|
  {
    var n := IndexOf(content, '\n');
    var m := if n > 0 && content[n - 1] == '\r' then n - 1 else n;
    var e := if n < |content| then n + 1 else n;
    var end := content[m..e];
    CutTwice(content, m, e);
    assert |end| == 2 ==> end == [content[m], content[m + 1]];
    assert |end| == 1 ==> end == [content[m]];
  }

  lemma LinesUnfold(content: string)
    requires content != [] && IndexOf(content, '\n') < MAX_LINE
    ensures Lines(content) == [FirstLine(content).0] + Lines(FirstLine(content).2)
  {
    var n := IndexOf(content, '\n');
    var rest := FirstLine(content).2;
    if n < |content| {
      assert rest == content[n + 1..];
    } else {
      assert rest == [] && Lines(rest) == [];
    }
  }

  lemma PlainFirstLine(content: string)
    requires content != [] && IndexOf(content, '\n') < MAX_LINE && PlainLines(content)
    ensures IsLine(FirstLine(content).0)
  {
    var n := IndexOf(content, '\n');
    var line := FirstLine(content).0;
    forall k | 0 <= k < |line|
      ensures !IsEOL(line[k])
    {
      assert line[k] == content[..n][k];
      if k < n - 1 {
        assert content[..n - 1][k] == line[k];
      }
    }
  }

  lemma PlainRest(content: string)
    requires content != [] && IndexOf(content, '\n') < MAX_LINE && PlainLines(content)
    ensures PlainLines(FirstLine(content).2)
  {
    var n := IndexOf(content, '\n');
    assert n < |content| ==> FirstLine(content).2 == content[n + 1..];
    assert n == |content| ==> FirstLine(content).2 == [];
  }

  /** What the RFC makes of the same line. */
  lemma FirstLineByRfc(line: string, end: string, rest: string)
    requires IsLine(line) && IsEnd(end, rest)
    ensures WithoutEmpty(RfcLines(line + (end + rest))) ==
            Nonempty(line) + WithoutEmpty(RfcLines(rest))
  {
    var tail := end + rest;
    NoLines();
    if tail == [] {
      RfcLine(line, tail);
      OneLine(line, []);
    } else {
      assert tail[0] == end[0];
      RfcLine(line, tail);
      OneLine(line, RfcLines(tail[1..]));
      EndGivesNoLine(end, rest);
    }
  }

  lemma NoLines()
    ensures WithoutEmpty(RfcLines([])) == []
  {
    assert RfcLines([]) == [""];
    OneLine([], []);
    assert [""] + [] == [""];
  }

  lemma EndGivesNoLine(end: string, rest: string)
    requires IsEnd(end, rest) && end != []
    ensures WithoutEmpty(RfcLines((end + rest)[1..])) == WithoutEmpty(RfcLines(rest))
  {
    if end == "\r\n" {
      EndOnly('\n', rest);
      assert (end + rest)[1..] == ['\n'] + rest;
    } else {
      assert (end + rest)[1..] == rest;
    }
  }

  lemma {:induction false} NothingLeft(content: string)
    requires Strip(content) == []
    ensures WithoutEmpty(RfcLines(content)) == []
    decreases |content|
  {
    if content == [] {
      NoLines();
    } else {
      var rest := content[1..];
      assert IsEOL(content[0]);
      RfcLine([], content);
      assert [] + content == content;
      OneLine([], RfcLines(rest));
      NothingLeft(rest);
    }
  }

  lemma {:induction false} SameLines(content: string)
    requires PlainLines(content)
    ensures WithoutEmpty(Lines(content)) == WithoutEmpty(RfcLines(content))
    decreases |content|
  {
    if content == [] {
      NoLines();
    } else if IndexOf(content, '\n') >= MAX_LINE {
      NothingLeft(content);
    } else {
      var (line, end, rest) := FirstLine(content);
      FirstLineEnds(content);
      LinesUnfold(content);
      PlainFirstLine(content);
      PlainRest(content);
      SameLines(rest);
      FirstLineByRfc(line, end, rest);
      OneLine(line, Lines(rest));
    }
  }

  // ------------------------------------------------------- and only then

  function Flat(lines: seq<string>): string {
    if lines == [] then [] else lines[0] + Flat(lines[1..])
  }

  lemma {:induction false} FlatIgnoresEmpty(lines: seq<string>)
    ensures Flat(WithoutEmpty(lines)) == Flat(lines)
  {
    if lines != [] {
      FlatIgnoresEmpty(lines[1..]);
      if lines[0] == [] {
        assert [] + Flat(lines[1..]) == Flat(lines[1..]);
        assert WithoutEmpty(lines) == WithoutEmpty(lines[1..]);
      } else {
        assert WithoutEmpty(lines)[1..] == WithoutEmpty(lines[1..]);
      }
    }
  }

  lemma {:induction false} StripAdds(a: string, b: string)
    ensures Strip(a + b) == Strip(a) + Strip(b)
  {
    if a == [] {
      assert a + b == b;
    } else {
      StripAdds(a[1..], b);
      assert (a + b)[1..] == a[1..] + b && (a + b)[0] == a[0];
      Regroup(Kept(a[0]), Strip(a[1..]), Strip(b));
    }
  }

  lemma {:induction false} StripKeeps(line: string)
    requires IsLine(line)
    ensures Strip(line) == line
  {
    if line != [] {
      StripKeeps(line[1..]);
    }
  }

  lemma FlatFirst(line: string, lines: seq<string>)
    ensures Flat([line] + lines) == line + Flat(lines)
  {
    assert ([line] + lines)[1..] == lines;
  }

  lemma EndStripped(rest: string)
    requires rest != [] && IsEOL(rest[0])
    ensures Strip(rest) == Strip(rest[1..])
  {
    assert [] + Strip(rest[1..]) == Strip(rest[1..]);
  }

  lemma {:induction false} FlatOfRfc(content: string)
    ensures Flat(RfcLines(content)) == Strip(content)
    decreases |content|
  {
    var n := LineEnd(content);
    var line, rest := content[..n], content[n..];
    assert content == line + rest;
    StripKeeps(line);
    StripAdds(line, rest);
    if n < |content| {
      EndStripped(rest);
      FlatOfRfc(rest[1..]);
      assert rest[1..] == content[n + 1..];
      FlatFirst(line, RfcLines(rest[1..]));
    } else {
      FlatFirst(line, []);
    }
  }

  /** If the scanner's lines hold what the file has outside the ends of lines, the lines are plain. */
  lemma {:induction false} PlainIfFlat(content: string)
    requires Flat(Lines(content)) == Strip(content)
    ensures PlainLines(content)
    decreases |content|
  {
    if content != [] && IndexOf(content, '\n') < MAX_LINE {
      var (line, end, rest) := FirstLine(content);
      FirstLineEnds(content);
      LinesUnfold(content);
      FlatFirst(line, Lines(rest));
      NoReturnLeft(line, Flat(Lines(rest)), Strip(content));
      FirstLineIsLine(content);
      StripLine(line, end, rest);
      SameAfter(line, Flat(Lines(rest)), Strip(rest));
      PlainIfFlat(rest);
      FirstLineIsPlain(content);
    }
  }

  lemma SameAfter(a: string, x: string, y: string)
    requires a + x == a + y
    ensures x == y
  {
    assert (a + x)[|a|..] == x && (a + y)[|a|..] == y;
  }

  lemma NoReturnLeft(line: string, rest: string, all: string)
    requires line + rest == all && '\r' !in all
    ensures '\r' !in line
  {
    forall k | 0 <= k < |line|
      ensures line[k] != '\r'
    {
      assert all[k] == line[k];
    }
  }

  lemma FirstLineIsLine(content: string)
    requires '\r' !in FirstLine(content).0
    ensures IsLine(FirstLine(content).0)
  {
    var n := IndexOf(content, '\n');
    forall k | 0 <= k < |FirstLine(content).0|
      ensures !IsEOL(FirstLine(content).0[k])
    {
      assert FirstLine(content).0[k] == content[..n][k];
    }
  }

  lemma FirstLineIsPlain(content: string)
    requires content != [] && IndexOf(content, '\n') < MAX_LINE
    requires '\r' !in FirstLine(content).0 && PlainLines(FirstLine(content).2)
    ensures PlainLines(content)
  {
    var n := IndexOf(content, '\n');
    assert content[..if n > 0 then n - 1 else 0] <= FirstLine(content).0;
  }

  lemma StripLine(line: string, end: string, rest: string)
    requires IsLine(line) && IsEnd(end, rest)
    ensures Strip(line + (end + rest)) == line + Strip(rest)
  {
    StripKeeps(line);
    StripAdds(line, end + rest);
    StripAdds(end, rest);
    EndStrips(end);
    assert [] + Strip(rest) == Strip(rest);
  }

  lemma EndStrips(end: string)
    requires |end| <= 2 && forall k :: 0 <= k < |end| ==> IsEOL(end[k])
    ensures Strip(end) == []
  {
    if |end| == 2 {
      assert end[1..][1..] == [];
    }
  }

  /** Exactly when the scanner gives the lines of the RFC, empty ones aside. */
  lemma SameLinesIffPlain(content: string)
    ensures WithoutEmpty(Lines(content)) == WithoutEmpty(RfcLines(content)) <==> PlainLines(content)
  {
    if PlainLines(content) {
      SameLines(content);
    }
    if WithoutEmpty(Lines(content)) == WithoutEmpty(RfcLines(content)) {
      FlatIgnoresEmpty(Lines(content));
      FlatIgnoresEmpty(RfcLines(content));
      FlatOfRfc(content);
      PlainIfFlat(content);
    }
  }

  function Said(e: Event): seq<Event> {
    if e == Blank then [] else [e]
  }

  lemma EventsOfLast(lines: seq<string>, line: string)
    ensures Events(lines + [line]) == Events(lines) + Said(Classify(line))
  {
    var all := lines + [line];
    EventsOfAppend(all, |lines|);
    assert all[..|lines| + 1] == all && all[..|lines|] == lines;
  }

  lemma EventsOfNonempty(lines: seq<string>, line: string)
    ensures Events(lines + Nonempty(line)) == Events(lines) + Said(Classify(line))
  {
    if line == [] {
      assert Classify(line) == Blank;
      assert lines + [] == lines && Events(lines) + [] == Events(lines);
    } else {
      EventsOfLast(lines, line);
    }
  }

  lemma WithoutEmptyLast(front: seq<string>, line: string)
    ensures WithoutEmpty(front + [line]) == WithoutEmpty(front) + Nonempty(line)
  {
    WithoutEmptyAdds(front, [line]);
    OneLine(line, []);
    assert [line] + [] == [line] && Nonempty(line) + [] == Nonempty(line);
  }

  lemma LastLine(lines: seq<string>) returns (front: seq<string>, line: string)
    requires lines != []
    ensures lines == front + [line]
  {
    front, line := lines[..|lines| - 1], lines[|lines| - 1];
  }

  lemma EventsStep(lines: seq<string>, front: seq<string>, line: string)
    requires lines == front + [line] && Events(WithoutEmpty(front)) == Events(front)
    ensures Events(WithoutEmpty(lines)) == Events(lines)
  {
    WithoutEmptyLast(front, line);
    EventsOfLast(front, line);
    EventsOfNonempty(WithoutEmpty(front), line);
  }

  /** Empty lines say nothing. */
  lemma {:induction false} EventsIgnoreEmpty(lines: seq<string>)
    ensures Events(WithoutEmpty(lines)) == Events(lines)
    decreases |lines|
  {
    if lines != [] {
      var front, line := LastLine(lines);
      EventsIgnoreEmpty(front);
      EventsStep(lines, front, line);
    }
  }

  /** So a plain file says the same to both. */
  lemma SameEvents(content: string)
    requires PlainLines(content)
    ensures Events(Lines(content)) == Events(RfcLines(content))
  {
    SameLinesIffPlain(content);
    EventsIgnoreEmpty(Lines(content));
    EventsIgnoreEmpty(RfcLines(content));
  }

  /** A file whose lines end in carriage returns alone is one line for the scanner, two for the RFC. */
  lemma ReturnsJoinLines(a: string, b: string)
    requires a != [] && b != [] && |a| + 1 + |b| < MAX_LINE && IsLine(a) && IsLine(b)
    ensures Lines(a + (['\r'] + b)) == [a + (['\r'] + b)]
    ensures WithoutEmpty(RfcLines(a + (['\r'] + b))) == [a, b]
  {
    OneLineOnly(a + (['\r'] + b));
    TwoLines(a, b);
  }

  lemma OneLineOnly(s: string)
    requires s != [] && |s| < MAX_LINE && s[|s| - 1] != '\r' && '\n' !in s
    ensures Lines(s) == [s]
  {
    assert IndexOf(s, '\n') == |s| && s[..|s|] == s;
  }

  lemma TwoLines(a: string, b: string)
    requires a != [] && b != [] && IsLine(a) && IsLine(b)
    ensures WithoutEmpty(RfcLines(a + (['\r'] + b))) == [a, b]
  {
    RfcLine(a, ['\r'] + b);
    RfcLine(b, []);
    assert (['\r'] + b)[1..] == b && b + [] == b && [b] + [] == [b];
    OneLine(a, [b]);
    OneLine(b, []);
    assert [a] + [b] == [a, b];
  }
}
