/** internal/robots/robots.go, Parse: what one line says, by how it is written; and what it says to section 2.2 of
    RFC 9309, for which only the space and the tab are white space. */
module RobotsRecords {
  import opened Commons
  import opened RobotsParse
  import opened RobotsLines

  type Space = char -> bool

  /** What strings.TrimSpace removes. */
  function GoSpace(): Space {
    c => c == ' ' || c == '\t' || c == '\n' || c as int == 11 || c as int == 12 || c == '\r'
  }

  /** WS of section 2.2. */
  function RfcSpace(): Space {
    c => c == ' ' || c == '\t'
  }

  predicate AllSpace(sp: Space, s: string) {
    forall i :: 0 <= i < |s| ==> sp(s[i])
  }

  /** No white space at either end. */
  predicate Bare(sp: Space, s: string) {
    s == [] || (!sp(s[0]) && !sp(s[|s| - 1]))
  }

  /** A record as it is written: key, colon and value, white space around both, and perhaps a comment. */
  datatype Layout = Layout(
    indent: string, key: string, gap: string, lead: string, value: string, trail: string, comment: string)
  {
    function Left(): string {
      indent + key + gap
    }

    function Right(): string {
      lead + value + trail
    }

    function Text(): string {
      Left() + [':'] + Right() + comment
    }

    predicate Proper(sp: Space) {
      && AllSpace(sp, indent) && Bare(sp, key) && AllSpace(sp, gap)
      && AllSpace(sp, lead) && Bare(sp, value) && AllSpace(sp, trail)
      && ':' !in key && '#' !in key && '#' !in value
      && (comment == [] || comment[0] == '#')
    }
  }

  ghost predicate IsWritten(sp: Space, line: string, l: Layout) {
    l.Proper(sp) && l.Text() == line
  }

  /** What a record of that key, in whatever case, says. */
  function Meaning(key: string, value: string): Event {
    var word := ToLower(key);
    if word == "allow" then RuleLine(true, value)
    else if word == "disallow" then RuleLine(false, value)
    else if word == "user-agent" then Agent(ToLower(value))
    else if word == "sitemap" then Sitemap(value)
    else if word == "crawl-delay" then Delay(value)
    else Other
  }

  /** The keys that the code knows. */
  predicate IsKnown(key: string) {
    var word := ToLower(key);
    word == "allow" || word == "disallow" || word == "user-agent" || word == "crawl-delay" || word == "sitemap"
  }

  /** What a line says with that white space: nothing if it is no record. */
  ghost function EventBy(sp: Space, line: string): Event {
    if exists l :: IsWritten(sp, line, l) then
      var l :| IsWritten(sp, line, l);
      Meaning(l.key, l.value)
    else Blank
  }

  // ------------------------------------------------------------- trimming

  function TrimStart(sp: Space, s: string): string {
    if s != [] && sp(s[0]) then TrimStart(sp, s[1..]) else s
  }

  function TrimEnd(sp: Space, s: string): string {
    if s != [] && sp(s[|s| - 1]) then TrimEnd(sp, s[..|s| - 1]) else s
  }

  lemma {:induction false} TrimmedAtStart(sp: Space, s: string) returns (a: string)
    ensures s == a + TrimStart(sp, s) && AllSpace(sp, a)
    ensures TrimStart(sp, s) != [] ==> !sp(TrimStart(sp, s)[0])
  {
    if s != [] && sp(s[0]) {
      var b := TrimmedAtStart(sp, s[1..]);
      a := [s[0]] + b;
    } else {
      a := [];
    }
  }

  lemma {:induction false} TrimmedAtEnd(sp: Space, s: string) returns (b: string)
    ensures s == TrimEnd(sp, s) + b && AllSpace(sp, b)
    ensures TrimEnd(sp, s) != [] ==> !sp(TrimEnd(sp, s)[|TrimEnd(sp, s)| - 1])
  {
    if s != [] && sp(s[|s| - 1]) {
      var c := TrimmedAtEnd(sp, s[..|s| - 1]);
      b := c + [s[|s| - 1]];
    } else {
      b := [];
    }
  }

  function Trim(sp: Space, s: string): string {
    TrimEnd(sp, TrimStart(sp, s))
  }

  /** What is trimmed is what is between the white space. */
  lemma OneWayToTrim(sp: Space, a: string, v: string, b: string, p: string, t: string, q: string)
    requires a + v + b == p + t + q
    requires AllSpace(sp, a) && AllSpace(sp, b) && Bare(sp, v) && AllSpace(sp, p) && AllSpace(sp, q) && Bare(sp, t)
    ensures v == t
  {
    LiesWithin(sp, a, v, b, p, t, q);
    LiesWithin(sp, p, t, q, a, v, b);
    if v != [] && t != [] {
      var s := a + v + b;
      assert v == s[|a|..|s| - |b|] && t == s[|p|..|s| - |q|];
    }
  }

  lemma NoSpaceWithin(sp: Space, p: string, t: string, q: string, i: nat)
    requires AllSpace(sp, p) && AllSpace(sp, q) && i < |p + t + q| && !sp((p + t + q)[i])
    ensures |p| <= i < |p| + |t|
  {
    var s := p + t + q;
    assert forall k :: 0 <= k < |p| ==> s[k] == p[k];
    assert forall k :: |p| + |t| <= k < |s| ==> s[k] == q[k - |p| - |t|];
  }

  /** If `v` is not empty it lies within `t`. */
  lemma LiesWithin(sp: Space, a: string, v: string, b: string, p: string, t: string, q: string)
    requires a + v + b == p + t + q
    requires Bare(sp, v) && AllSpace(sp, p) && AllSpace(sp, q)
    ensures v != [] ==> |p| <= |a| && |q| <= |b| && t != []
  {
    if v != [] {
      var s := a + v + b;
      assert s[|a|] == v[0] && s[|a| + |v| - 1] == v[|v| - 1];
      NoSpaceWithin(sp, p, t, q, |a|);
      NoSpaceWithin(sp, p, t, q, |a| + |v| - 1);
      assert |a| + |v| + |b| == |p| + |t| + |q|;
    }
  }

  lemma TrimParts(sp: Space, s: string) returns (a: string, b: string)
    ensures s == a + Trim(sp, s) + b && AllSpace(sp, a) && AllSpace(sp, b) && Bare(sp, Trim(sp, s))
  {
    a := TrimmedAtStart(sp, s);
    b := TrimmedAtEnd(sp, TrimStart(sp, s));
    ThreeParts(a, Trim(sp, s), b);
  }

  lemma ThreeParts(a: string, v: string, b: string)
    ensures a + (v + b) == a + v + b
    ensures v != [] ==> (v + b)[0] == v[0]
  {
  }

  lemma TrimBetween(sp: Space, a: string, v: string, b: string)
    requires AllSpace(sp, a) && Bare(sp, v) && AllSpace(sp, b)
    ensures Trim(sp, a + v + b) == v
  {
    var p, q := TrimParts(sp, a + v + b);
    OneWayToTrim(sp, a, v, b, p, Trim(sp, a + v + b), q);
  }

  lemma {:induction false} TrimLeftIsStart(s: string)
    ensures TrimLeft(s) == TrimStart(GoSpace(), s)
  {
    if s != [] && IsSpace(s[0]) {
      TrimLeftIsStart(s[1..]);
    }
  }

  lemma {:induction false} TrimRightIsEnd(s: string)
    ensures TrimRight(s) == TrimEnd(GoSpace(), s)
  {
    if s != [] && IsSpace(s[|s| - 1]) {
      TrimRightIsEnd(s[..|s| - 1]);
    }
  }

  lemma TrimSpaceIsTrim(s: string)
    ensures TrimSpace(s) == Trim(GoSpace(), s)
  {
    TrimLeftIsStart(s);
    TrimRightIsEnd(TrimLeft(s));
  }

  // ------------------------------------------------------ a line's parts

  lemma FirstAt(a: string, c: char, t: string)
    requires c !in a && (t == [] || t[0] == c)
    ensures IndexOf(a + t, c) == |a| && (a + t)[..|a|] == a
  {
    var s := a + t;
    var i := IndexOf(s, c);
    assert forall k :: 0 <= k < |a| ==> s[k] == a[k];
    forall k | 0 <= k < i
      ensures s[k] != c
    {
      assert s[k] == s[..i][k];
    }
    assert t != [] ==> s[|a|] == c;
  }

  /** The line without its comment, and what is left and right of its colon. */
  function TextOf(line: string): string {
    line[..IndexOf(line, '#')]
  }

  predicate HasColon(line: string) {
    IndexOf(TextOf(line), ':') < |TextOf(line)|
  }

  function LeftOf(line: string): string
    requires HasColon(line)
  {
    TextOf(line)[..IndexOf(TextOf(line), ':')]
  }

  function RightOf(line: string): string
    requires HasColon(line)
  {
    TextOf(line)[IndexOf(TextOf(line), ':') + 1..]
  }

  lemma CommentFirst(l: Layout, sp: Space)
    requires l.Proper(sp) && !sp('#') && !sp(':')
    ensures '#' !in l.Left() && ':' !in l.Left() && '#' !in l.Right()
    ensures TextOf(l.Text()) == l.Left() + [':'] + l.Right()
  {
    var text := l.Left() + [':'] + l.Right();
    assert '#' !in text;
    FirstAt(text, '#', l.comment);
  }

  lemma PartsOfLayout(l: Layout, sp: Space)
    requires l.Proper(sp) && !sp('#') && !sp(':')
    ensures HasColon(l.Text()) && LeftOf(l.Text()) == l.Left() && RightOf(l.Text()) == l.Right()
    ensures l.key == Trim(sp, l.Left()) && l.value == Trim(sp, l.Right())
  {
    CommentFirst(l, sp);
    var tail := [':'] + l.Right();
    assert l.Left() + [':'] + l.Right() == l.Left() + tail;
    FirstAt(l.Left(), ':', tail);
    assert (l.Left() + tail)[|l.Left()| + 1..] == l.Right();
    TrimBetween(sp, l.indent, l.key, l.gap);
    TrimBetween(sp, l.lead, l.value, l.trail);
  }

  lemma PartsHave(line: string)
    requires HasColon(line)
    ensures TextOf(line) == LeftOf(line) + [':'] + RightOf(line)
    ensures line == TextOf(line) + line[|TextOf(line)|..]
    ensures line[|TextOf(line)|..] == [] || line[|TextOf(line)|..][0] == '#'
    ensures ':' !in LeftOf(line) && '#' !in LeftOf(line) && '#' !in RightOf(line)
  {
    var text, left, right := TextOf(line), LeftOf(line), RightOf(line);
    assert '#' !in text;
    assert forall k :: 0 <= k < |left| ==> left[k] == text[k];
    assert forall k :: 0 <= k < |right| ==> right[k] == text[|left| + 1 + k];
  }

  lemma LayoutOfParts(sp: Space, line: string) returns (l: Layout)
    requires HasColon(line)
    ensures IsWritten(sp, line, l)
  {
    var text, left, right := TextOf(line), LeftOf(line), RightOf(line);
    PartsHave(line);
    var a, b := TrimParts(sp, left);
    var c, d := TrimParts(sp, right);
    l := LayoutFrom(sp, left, a, Trim(sp, left), b, right, c, Trim(sp, right), d, line[|text|..]);
  }

  lemma LayoutFrom(
    sp: Space, left: string, a: string, key: string, b: string, right: string, c: string, value: string, d: string,
    comment: string)
    returns (l: Layout)
    requires left == a + key + b && AllSpace(sp, a) && Bare(sp, key) && AllSpace(sp, b)
    requires right == c + value + d && AllSpace(sp, c) && Bare(sp, value) && AllSpace(sp, d)
    requires ':' !in left && '#' !in left && '#' !in right && (comment == [] || comment[0] == '#')
    ensures IsWritten(sp, left + [':'] + right + comment, l)
  {
    l := Layout(a, key, b, c, value, d, comment);
    assert forall x :: x in key ==> x in left;
    assert forall x :: x in value ==> x in right;
  }

  lemma PartsOfWritten(sp: Space, line: string, l: Layout)
    requires IsWritten(sp, line, l) && !sp('#') && !sp(':')
    ensures HasColon(line) && l.key == Trim(sp, LeftOf(line)) && l.value == Trim(sp, RightOf(line))
  {
    PartsOfLayout(l, sp);
  }

  lemma EventOfWritten(sp: Space, line: string, l: Layout, key: string, value: string)
    requires IsWritten(sp, line, l)
    requires forall m :: IsWritten(sp, line, m) ==> m.key == key && m.value == value
    ensures EventBy(sp, line) == Meaning(key, value)
  {
  }

  lemma AllWrittenAlike(sp: Space, line: string)
    requires HasColon(line) && !sp('#') && !sp(':')
    ensures forall m :: IsWritten(sp, line, m) ==> m.key == Trim(sp, LeftOf(line)) && m.value == Trim(sp, RightOf(line))
  {
    forall m | IsWritten(sp, line, m)
      ensures m.key == Trim(sp, LeftOf(line)) && m.value == Trim(sp, RightOf(line))
    {
      PartsOfWritten(sp, line, m);
    }
  }

  lemma EventByParts(sp: Space, line: string)
    requires !sp('#') && !sp(':')
    ensures EventBy(sp, line) ==
            if HasColon(line) then Meaning(Trim(sp, LeftOf(line)), Trim(sp, RightOf(line))) else Blank
  {
    if HasColon(line) {
      AllWrittenAlike(sp, line);
      var l := LayoutOfParts(sp, line);
      EventOfWritten(sp, line, l, Trim(sp, LeftOf(line)), Trim(sp, RightOf(line)));
    } else {
      forall m
        ensures !IsWritten(sp, line, m)
      {
        if IsWritten(sp, line, m) {
          PartsOfWritten(sp, line, m);
        }
      }
    }
  }

  // ------------------------------------------------- what the code reads

  lemma ClassifyByParts(line: string)
    ensures Classify(line) ==
            if HasColon(line) then Meaning(TrimSpace(LeftOf(line)), TrimSpace(RightOf(line))) else Blank
  {
  }

  lemma ClassifyReads(line: string)
    ensures Classify(line) == EventBy(GoSpace(), line)
  {
    EventByParts(GoSpace(), line);
    ClassifyByParts(line);
    if HasColon(line) {
      TrimSpaceIsTrim(LeftOf(line));
      TrimSpaceIsTrim(RightOf(line));
    }
  }

  lemma LineMeans(l: Layout)
    requires l.Proper(GoSpace())
    ensures Classify(l.Text()) == Meaning(l.key, l.value)
  {
    PartsOfLayout(l, GoSpace());
    ClassifyByParts(l.Text());
    TrimSpaceIsTrim(l.Left());
    TrimSpaceIsTrim(l.Right());
  }

  /** What a line says, however it is laid out: with any white space around key and value, in any case of the key's
      letters, with any comment. */
  lemma LineSays(l: Layout)
    requires l.Proper(GoSpace())
    ensures var e, word := Classify(l.Text()), ToLower(l.key);
            && (word == "allow" ==> e == RuleLine(true, l.value))
            && (word == "disallow" ==> e == RuleLine(false, l.value))
            && (word == "user-agent" ==> e == Agent(ToLower(l.value)))
            && (word == "crawl-delay" ==> e == Delay(l.value))
            && (word == "sitemap" ==> e == Sitemap(l.value))
            && (!IsKnown(l.key) ==> e == Other)
  {
    LineMeans(l);
  }

  /** A line without a colon before its comment says nothing. */
  lemma NoColonSaysNothing(text: string, comment: string)
    requires ':' !in text && '#' !in text && (comment == [] || comment[0] == '#')
    ensures Classify(text + comment) == Blank
  {
    FirstAt(text, '#', comment);
    FirstAt(text, ':', []);
    assert text + [] == text;
  }

  // ---------------------------------------------------- and what the RFC

  /** The code knows the key, and at an end of key or value there is white space for the code. */
  predicate IsOdd(key: string, value: string) {
    IsKnown(Trim(GoSpace(), key)) && !(Bare(GoSpace(), key) && Bare(GoSpace(), value))
  }

  /** A record that has such white space for the code and none there for the RFC. */
  ghost predicate HasOddSpace(line: string) {
    exists l :: IsWritten(RfcSpace(), line, l) && IsOdd(l.key, l.value)
  }

  lemma FiveParts(a: string, c: string, w: string, d: string, b: string)
    ensures a + (c + w + d) + b == (a + c) + w + (d + b)
  {
  }

  lemma TrimIsBare(sp: Space, s: string)
    ensures Bare(sp, Trim(sp, s))
  {
    var a, b := TrimParts(sp, s);
  }

  lemma BareIsTrimmed(sp: Space, v: string)
    requires Bare(sp, v)
    ensures Trim(sp, v) == v
  {
    assert [] + v + [] == v;
    TrimBetween(sp, [], v, []);
  }

  lemma TrimOfBare(sp: Space, v: string)
    ensures Bare(sp, v) <==> Trim(sp, v) == v
  {
    TrimIsBare(sp, v);
    if Bare(sp, v) {
      BareIsTrimmed(sp, v);
    }
  }

  lemma MoreSpace(s: string)
    requires AllSpace(RfcSpace(), s)
    ensures AllSpace(GoSpace(), s)
  {
  }

  lemma TrimNested(a: string, v: string, b: string, c: string, w: string, d: string)
    requires AllSpace(RfcSpace(), a) && AllSpace(RfcSpace(), b) && v == c + w + d
    requires AllSpace(GoSpace(), c) && AllSpace(GoSpace(), d) && Bare(GoSpace(), w)
    ensures Trim(GoSpace(), a + v + b) == w
  {
    MoreSpace(a);
    MoreSpace(b);
    FiveParts(a, c, w, d, b);
    TrimBetween(GoSpace(), a + c, w, d + b);
  }

  lemma TrimTwice(s: string)
    ensures Trim(GoSpace(), Trim(RfcSpace(), s)) == Trim(GoSpace(), s)
  {
    var v := Trim(RfcSpace(), s);
    var a, b := TrimParts(RfcSpace(), s);
    var c, d := TrimParts(GoSpace(), v);
    TrimNested(a, v, b, c, Trim(GoSpace(), v), d);
  }

  lemma TrimIsShorter(sp: Space, s: string)
    ensures |Trim(sp, s)| == |s| ==> Trim(sp, s) == s
  {
    var a, b := TrimParts(sp, s);
  }

  lemma LetterAtEnds(key: string, word: string)
    requires ToLower(key) == word && word != []
    requires 'a' <= word[0] <= 'z' && 'a' <= word[|word| - 1] <= 'z'
    ensures Bare(GoSpace(), key)
  {
    assert word[0] == ToLower(key)[0] && word[|word| - 1] == ToLower(key)[|key| - 1];
  }

  /** A known key has a letter at either end. */
  lemma KnownIsBare(key: string)
    requires IsKnown(key)
    ensures Bare(GoSpace(), key)
  {
    LetterAtEnds(key, ToLower(key));
  }

  /** Meanings of a key and value as the RFC reads them and as the code does. */
  lemma MeaningsDiffer(key: string, value: string, k: string, v: string)
    requires |k| == |key| ==> k == key
    requires |v| == |value| ==> v == value
    requires IsKnown(key) ==> k == key
    ensures Meaning(k, v) == Meaning(key, value) <==> !IsKnown(k) || (k == key && v == value)
  {
    if IsKnown(k) && k == key && v != value {
      assert |ToLower(v)| != |ToLower(value)|;
    }
  }

  lemma OddSpaceByParts(line: string)
    requires HasColon(line)
    ensures HasOddSpace(line) <==> IsOdd(Trim(RfcSpace(), LeftOf(line)), Trim(RfcSpace(), RightOf(line)))
  {
    AllWrittenAlike(RfcSpace(), line);
    var l := LayoutOfParts(RfcSpace(), line);
    OddIfWritten(line, l, Trim(RfcSpace(), LeftOf(line)), Trim(RfcSpace(), RightOf(line)));
  }

  lemma OddIfWritten(line: string, l: Layout, key: string, value: string)
    requires IsWritten(RfcSpace(), line, l)
    requires forall m :: IsWritten(RfcSpace(), line, m) ==> m.key == key && m.value == value
    ensures HasOddSpace(line) <==> IsOdd(key, value)
  {
  }

  lemma AlikeByParts(key: string, value: string)
    ensures var k, v := Trim(GoSpace(), key), Trim(GoSpace(), value);
            Meaning(k, v) == Meaning(key, value) <==> !IsOdd(key, value)
  {
    var k, v := Trim(GoSpace(), key), Trim(GoSpace(), value);
    TrimIsShorter(GoSpace(), key);
    TrimIsShorter(GoSpace(), value);
    TrimOfBare(GoSpace(), key);
    TrimOfBare(GoSpace(), value);
    if IsKnown(key) {
      KnownIsBare(key);
    }
    MeaningsDiffer(key, value, k, v);
  }

  /** Exactly when a line says the same to the code and to the RFC. */
  lemma ReadsAlikeIffNoOddSpace(line: string)
    ensures Classify(line) == EventBy(RfcSpace(), line) <==> !HasOddSpace(line)
  {
    EventByParts(RfcSpace(), line);
    ClassifyReads(line);
    EventByParts(GoSpace(), line);
    if HasColon(line) {
      TrimTwice(LeftOf(line));
      TrimTwice(RightOf(line));
      AlikeByParts(Trim(RfcSpace(), LeftOf(line)), Trim(RfcSpace(), RightOf(line)));
      OddSpaceByParts(line);
    } else if HasOddSpace(line) {
      var l :| IsWritten(RfcSpace(), line, l);
      PartsOfWritten(RfcSpace(), line, l);
    }
  }

  /** What the lines say to the RFC. */
  ghost function RfcEvents(lines: seq<string>): seq<Event> {
    if lines == [] then []
    else RfcEvents(lines[..|lines| - 1]) + Said(EventBy(RfcSpace(), lines[|lines| - 1]))
  }

  lemma {:induction false} SameRecords(lines: seq<string>)
    requires forall line :: line in lines ==> !HasOddSpace(line)
    ensures RfcEvents(lines) == Events(lines)
  {
    if lines != [] {
      SameRecords(lines[..|lines| - 1]);
      ReadsAlikeIffNoOddSpace(lines[|lines| - 1]);
    }
  }

  lemma EmptyIsNoRecord()
    ensures !HasOddSpace([])
  {
    forall l: Layout
      ensures l.Text() != []
    {
      assert ':' in l.Text();
    }
  }

  lemma {:induction false} WithoutEmptyHas(lines: seq<string>)
    ensures forall line :: line in WithoutEmpty(lines) <==> line in lines && line != []
  {
    if lines != [] {
      WithoutEmptyHas(lines[1..]);
      assert lines == [lines[0]] + lines[1..];
    }
  }

  /** Lines without such white space, ended as the RFC ends them, say the same to the code and to the RFC. */
  lemma FileSaysTheSame(content: string)
    requires PlainLines(content) && forall line :: line in Lines(content) ==> !HasOddSpace(line)
    ensures RfcEvents(RfcLines(content)) == Events(Lines(content))
  {
    SameLinesIffPlain(content);
    WithoutEmptyHas(Lines(content));
    WithoutEmptyHas(RfcLines(content));
    EmptyIsNoRecord();
    SameRecords(RfcLines(content));
    SameEvents(content);
  }
}
