/** internal/robots/robots.go: compile and unescape. A robots.txt path pattern becomes the text
    of a regular expression; this module gives that text its meaning and proves that it is the
    wildcard matching of section 2.2.3 of RFC 9309.

    Patterns, expressions and paths are sequences of octets, one per `char`. Where they are matched they
    are read as characters first, as Go reads them: an octet that starts no character is U+FFFD. */
module RobotsPattern {
  import opened Commons
  import opened Utf8

  // ------------------------------------------------------ percent-decoding

  function HexValue(c: char): (v: Option<int>)
    ensures v.Some? ==> 0 <= v.value < 16
  {
    if '0' <= c <= '9' then Some(c as int - '0' as int)
    else if 'a' <= c <= 'f' then Some(c as int - 'a' as int + 10)
    else if 'A' <= c <= 'F' then Some(c as int - 'A' as int + 10)
    else None
  }

  /** The sixteen digits, in either case. */
  lemma HexDigits(c: char, v: nat)
    ensures HexValue(c) == Some(v) <==> v < 16 && (c == "0123456789abcdef"[v] || c == "0123456789ABCDEF"[v])
  {
  }

  /** The escape that `s` starts with: `%` and two hexadecimal digits. */
  function EscapeAt(s: string): (o: Option<char>)
  {
    if |s| < 3 || s[0] != '%' || HexValue(s[1]).None? || HexValue(s[2]).None? then None
    else Some((16 * HexValue(s[1]).value + HexValue(s[2]).value) as char)
  }

  /** url.PathUnescape: fails on a `%` that starts no escape. */
  function Decode(s: string): (r: Option<string>) {
    if s == [] then Some([])
    else if s[0] != '%' then
      match Decode(s[1..])
      case Some(t) => Some([s[0]] + t)
      case None => None
    else if EscapeAt(s).None? then None
    else
      match Decode(s[3..])
      case Some(t) => Some([EscapeAt(s).value] + t)
      case None => None
  }

  function Unescape(s: string): string {
    match Decode(s)
    case Some(u) => u
    case None => s
  }

  // ---------------------------------------------- the expression as text

  predicate IsMeta(c: char) {
    c in "\\.+*?()|[]{}^$"
  }

  /** regexp.QuoteMeta */
  function QuoteMeta(s: string): string {
    if s == [] then []
    else (if IsMeta(s[0]) then ['\\', s[0]] else [s[0]]) + QuoteMeta(s[1..])
  }

  /** strings.Split(s, "*") */
  function Split(s: string): (parts: seq<string>)
    ensures parts != []
  {
    if s == [] then [[]]
    else if s[0] == '*' then [[]] + Split(s[1..])
    else
      var rest := Split(s[1..]);
      [[s[0]] + rest[0]] + rest[1..]
  }

  function QuoteAll(parts: seq<string>): (r: seq<string>)
    ensures |r| == |parts|
  {
    if parts == [] then [] else [QuoteMeta(parts[0])] + QuoteAll(parts[1..])
  }

  function Join(parts: seq<string>, sep: string): string
    requires parts != []
  {
    if |parts| == 1 then parts[0] else parts[0] + sep + Join(parts[1..], sep)
  }

  predicate Anchored(pattern: string) {
    pattern != [] && pattern[|pattern| - 1] == '$'
  }

  /** The pattern without its end anchor. */
  function Body(pattern: string): string {
    if Anchored(pattern) then pattern[..|pattern| - 1] else pattern
  }

  function CompileExpr(pattern: string): (expr: string) {
    "^" + Join(QuoteAll(Split(Unescape(Body(pattern)))), ".*") + (if Anchored(pattern) then "$" else "")
  }

  // --------------------------------------------- what such text means (RE2)

  datatype Atom = Lit(c: char) | AnyButNewline

  datatype Item = Begin | End | One(a: Atom) | Star(a: Atom)

  predicate Accepts(a: Atom, c: char) {
    match a
    case Lit(d) => c == d
    case AnyButNewline => c != '\n'
  }

  /** The characters that mean something else than themselves in an expression. */
  predicate IsOperator(c: char) {
    || c == '\\' || c == '.' || c == '*' || c == '+' || c == '?' || c == '|' || c == '^' || c == '$'
    || c == '(' || c == ')' || c == '[' || c == ']' || c == '{' || c == '}'
  }

  /** The atom that an expression starts with, and how many characters it takes. */
  function ReadAtom(e: string): (r: Option<(Atom, nat)>)
    ensures r.Some? ==> 1 <= r.value.1 <= |e|
  {
    if e == [] then None
    else if e[0] == '.' then Some((AnyButNewline, 1))
    else if e[0] == '\\' then (if |e| >= 2 && IsOperator(e[1]) then Some((Lit(e[1]), 2)) else None)
    else if IsOperator(e[0]) then None
    else Some((Lit(e[0]), 1))
  }

  /** The syntax of anchors, literals, escaped literals, the dot and the star. Groups, classes and
      the other repetitions are outside this fragment. */
  function ReadExpr(e: string): (r: Option<seq<Item>>)
    decreases |e|
  {
    if e == [] then Some([])
    else if e[0] == '^' then Prepend(Begin, ReadExpr(e[1..]))
    else if e[0] == '$' then Prepend(End, ReadExpr(e[1..]))
    else
      match ReadAtom(e)
      case None => None
      case Some((a, n)) =>
        if n < |e| && e[n] == '*' then Prepend(Star(a), ReadExpr(e[n + 1..]))
        else Prepend(One(a), ReadExpr(e[n..]))
  }

  function Prepend(i: Item, r: Option<seq<Item>>): Option<seq<Item>> {
    match r
    case Some(items) => Some([i] + items)
    case None => None
  }

  /** Some way of matching `items` starts at index `i` of `s`. */
  predicate MatchesAt(items: seq<Item>, s: string, i: nat)
    requires i <= |s|
    decreases |items|, |s| - i
  {
    if items == [] then true
    else
      var rest := items[1..];
      match items[0]
      case Begin => i == 0 && MatchesAt(rest, s, i)
      case End => i == |s| && MatchesAt(rest, s, i)
      case One(a) => i < |s| && Accepts(a, s[i]) && MatchesAt(rest, s, i + 1)
      case Star(a) =>
        || MatchesAt(rest, s, i)
        || (i < |s| && Accepts(a, s[i]) && MatchesAt(items, s, i + 1))
  }

  /** regexp.MatchString: a match anywhere in the string. */
  predicate MatchString(items: seq<Item>, s: string) {
    exists i :: 0 <= i <= |s| && MatchesAt(items, s, i)
  }

  /** regexp.MustCompile returns: the expression is well-formed UTF-8 of this syntax. On any other it panics. */
  predicate IsExpr(expr: string) {
    WellFormed(expr) && ReadExpr(Runes(expr)).Some?
  }

  predicate ExprMatches(expr: string, s: string) {
    IsExpr(expr) && MatchString(ReadExpr(Runes(expr)).value, Runes(s))
  }

  // -------------------------------------------- wildcard matching (RFC 9309)

  datatype Tok = Ch(c: char) | Wild

  /** The definition of section 2.2.3: characters stand for themselves, `*` for any run of
      characters, and the end of the pattern need not be the end of the path unless anchored.
      With `crossNewline` false a run may not contain a newline. */
  predicate Wildcard(toks: seq<Tok>, anchored: bool, s: string, crossNewline: bool)
    decreases |toks|
  {
    if toks == [] then anchored ==> s == []
    else
      match toks[0]
      case Ch(c) => s != [] && s[0] == c && Wildcard(toks[1..], anchored, s[1..], crossNewline)
      case Wild =>
        exists k :: 0 <= k <= |s| && (crossNewline || '\n' !in s[..k])
                    && Wildcard(toks[1..], anchored, s[k..], crossNewline)
  }

  /** A decoded pattern body read character by character. */
  function TokensOf(body: string): (t: seq<Tok>)
    ensures |t| == |body|
  {
    if body == [] then [] else [if body[0] == '*' then Wild else Ch(body[0])] + TokensOf(body[1..])
  }

  /** The matching that the code decides, for a pattern that it compiles. */
  predicate CodeMatches(pattern: string, s: string) {
    ExprMatches(CompileExpr(pattern), s)
  }

  /** The code compiles the pattern: it decodes to well-formed UTF-8. */
  predicate Compiles(pattern: string) {
    WellFormed(Unescape(Body(pattern)))
  }

  // ------------------------------------- the text is the token sequence

  /** Split, quote and join in one pass. */
  function Translate(s: string): string {
    if s == [] then [] else Spell(s[0]) + Translate(s[1..])
  }

  function Spell(c: char): string {
    if c == '*' then ".*" else if IsMeta(c) then ['\\', c] else [c]
  }

  lemma {:induction false} SplitQuoteJoin(s: string)
    ensures Join(QuoteAll(Split(s)), ".*") == Translate(s)
  {
    if s == [] {
      assert QuoteAll([[]]) == [[]];
    } else {
      SplitQuoteJoin(s[1..]);
      var rest := Split(s[1..]);
      if s[0] == '*' {
        assert Split(s)[1..] == rest && Split(s)[0] == [];
        assert QuoteAll(Split(s)) == [[]] + QuoteAll(rest);
        assert QuoteAll(Split(s))[1..] == QuoteAll(rest);
      } else {
        var first := [s[0]] + rest[0];
        assert first[0] == s[0] && first[1..] == rest[0];
        assert Split(s)[1..] == rest[1..] && Split(s)[0] == first;
        assert QuoteAll(Split(s))[1..] == QuoteAll(rest)[1..];
        JoinFirst(QuoteAll(Split(s)), QuoteAll(rest), if IsMeta(s[0]) then ['\\', s[0]] else [s[0]]);
      }
    }
  }

  lemma JoinFirst(a: seq<string>, b: seq<string>, p: string)
    requires a != [] && b != [] && a[0] == p + b[0] && a[1..] == b[1..]
    ensures Join(a, ".*") == p + Join(b, ".*")
  {
    if |b| == 1 {
      assert |a[1..]| == 0;
    } else {
      assert |a[1..]| == |b[1..]|;
      assert p + b[0] + ".*" + Join(b[1..], ".*") == p + (b[0] + ".*" + Join(b[1..], ".*"));
    }
  }

  function ItemsOf(toks: seq<Tok>): (items: seq<Item>)
    ensures |items| == |toks|
  {
    if toks == [] then []
    else [ItemOf(toks[0])] + ItemsOf(toks[1..])
  }

  function EndItems(anchored: bool): seq<Item> {
    if anchored then [End] else []
  }

  lemma ReadStar(e: string)
    ensures ReadExpr(".*" + e) == Prepend(Star(AnyButNewline), ReadExpr(e))
  {
    assert (".*" + e)[2..] == e;
  }

  lemma ReadLiteral(c: char, e: string)
    requires e == [] || e[0] != '*'
    ensures ReadExpr((if IsMeta(c) then ['\\', c] else [c]) + e) == Prepend(One(Lit(c)), ReadExpr(e))
  {
    if IsMeta(c) {
      var f := ['\\', c] + e;
      assert f[2..] == e && ReadAtom(f) == Some((Lit(c), 2));
    } else {
      var f := [c] + e;
      assert f[1..] == e && ReadAtom(f) == Some((Lit(c), 1));
    }
  }

  lemma ReadTail(tail: string)
    requires tail == [] || tail == "$"
    ensures ReadExpr(tail) == Some(EndItems(tail == "$"))
  {
    if tail != [] {
      assert tail[1..] == [];
      assert [End] + [] == EndItems(true);
      assert ReadExpr(tail) == Prepend(End, ReadExpr([]));
    }
  }

  function ItemOf(t: Tok): Item {
    if t.Wild? then Star(AnyButNewline) else One(Lit(t.c))
  }

  /** The translation of one character reads as one item. */
  lemma ReadFirst(s: string, tail: string)
    requires s != [] && (tail == [] || tail == "$")
    ensures ReadExpr(Translate(s) + tail)
         == Prepend(ItemOf(TokensOf(s)[0]), ReadExpr(Translate(s[1..]) + tail))
  {
    var e := Translate(s[1..]) + tail;
    assert e == [] || e[0] != '*';
    if s[0] == '*' {
      ReadStar(e);
      assert Translate(s) + tail == ".*" + e;
    } else {
      ReadLiteral(s[0], e);
      assert Translate(s) + tail == (if IsMeta(s[0]) then ['\\', s[0]] else [s[0]]) + e;
    }
  }

  lemma {:induction false} ReadTranslated(s: string, tail: string)
    requires tail == [] || tail == "$"
    ensures ReadExpr(Translate(s) + tail) == Some(ItemsOf(TokensOf(s)) + EndItems(tail == "$"))
  {
    if s == [] {
      assert Translate(s) + tail == tail;
      assert ItemsOf(TokensOf(s)) + EndItems(tail == "$") == EndItems(tail == "$");
      ReadTail(tail);
    } else {
      ReadTranslated(s[1..], tail);
      ReadFirst(s, tail);
      var toks := TokensOf(s);
      assert toks[1..] == TokensOf(s[1..]);
      assert ItemsOf(toks) + EndItems(tail == "$")
          == [ItemOf(toks[0])] + (ItemsOf(toks[1..]) + EndItems(tail == "$"));
    }
  }

  // ---------------------------------------- the text read as characters

  lemma AsciiFirst(c: char, t: string)
    requires c as int < 0x80
    ensures Runes([c] + t) == [c] + Runes(t)
    ensures WellFormed([c] + t) <==> WellFormed(t)
  {
    assert ([c] + t)[1..] == t;
  }

  lemma AsciiOnly(tail: string)
    requires tail == [] || tail == "$"
    ensures Runes(tail) == tail && WellFormed(tail)
  {
    if tail == "$" {
      AsciiFirst('$', []);
      assert ['$'] + [] == tail;
    }
  }

  lemma {:induction false} TranslateSplits(s: string, n: nat)
    requires n <= |s|
    ensures Translate(s) == Translate(s[..n]) + Translate(s[n..])
  {
    if n > 0 {
      TranslateSplits(s[1..], n - 1);
      assert s[..n][1..] == s[1..][..n - 1] && s[n..] == s[1..][n - 1..];
    }
  }

  lemma {:induction false} TranslateHigh(s: string)
    requires forall k :: 0 <= k < |s| ==> s[k] as int >= 0x80
    ensures Translate(s) == s
  {
    if s != [] {
      TranslateHigh(s[1..]);
    }
  }

  /** The first character of `s` translated: itself, or with characters of ASCII in its place. */
  lemma TranslateFirst(s: string)
    requires CharLen(s) > 0
    ensures var n := CharLen(s); Translate(s) == (if n == 1 then Spell(s[0]) else s[..n]) + Translate(s[n..])
  {
    var n := CharLen(s);
    if n > 1 {
      TranslateSplits(s, n);
      CharShape(s);
      TranslateHigh(s[..n]);
    }
  }

  lemma SpelledAscii(c: char, t: string)
    requires c as int < 0x80
    ensures Runes(Spell(c) + t) == Spell(c) + Runes(t)
    ensures WellFormed(Spell(c) + t) <==> WellFormed(t)
  {
    var u := Spell(c);
    if |u| == 1 {
      AsciiFirst(c, t);
    } else {
      TwoAscii(u[0], u[1], t);
      assert u == [u[0], u[1]];
    }
  }

  lemma TwoAscii(c: char, d: char, t: string)
    requires c as int < 0x80 && d as int < 0x80
    ensures Runes([c, d] + t) == [c, d] + Runes(t)
    ensures WellFormed([c, d] + t) <==> WellFormed(t)
  {
    AsciiFirst(d, t);
    AsciiFirst(c, [d] + t);
    assert [c, d] + t == [c] + ([d] + t);
    assert [c, d] + Runes(t) == [c] + ([d] + Runes(t));
  }

  lemma TranslateOne(c: char, t: string)
    ensures Translate([c] + t) == Spell(c) + Translate(t)
  {
    assert ([c] + t)[1..] == t;
  }

  lemma Regroup(a: string, b: string, c: string)
    ensures a + b + c == a + (b + c)
  {
  }

  lemma TranslatedHighStep(s: string, t: string)
    requires CharLen(s) > 1
    ensures Runes(s[..CharLen(s)] + t) == Spell(RuneOf(s)) + Runes(t)
    ensures WellFormed(s[..CharLen(s)] + t) <==> WellFormed(t)
  {
    CharLenLocal(s, CharLen(s));
    CharLenExtends(s[..CharLen(s)], s);
    CharFirst(s[..CharLen(s)], t);
  }

  /** The first character of the translated text. */
  lemma TranslatedStep(s: string, tail: string)
    requires CharLen(s) > 0
    ensures var t := Translate(s[CharLen(s)..]) + tail;
            && Runes(Translate(s) + tail) == Spell(RuneOf(s)) + Runes(t)
            && (WellFormed(Translate(s) + tail) <==> WellFormed(t))
  {
    var n := CharLen(s);
    var rest := Translate(s[n..]);
    TranslateFirst(s);
    Regroup(if n == 1 then Spell(s[0]) else s[..n], rest, tail);
    if n == 1 {
      SpelledAscii(s[0], rest + tail);
    } else {
      TranslatedHighStep(s, rest + tail);
    }
  }

  /** Translating and reading the characters can change places. */
  lemma {:induction false} RunesOfTranslated(s: string, tail: string)
    requires WellFormed(s) && (tail == [] || tail == "$")
    ensures WellFormed(Translate(s) + tail) && Runes(Translate(s) + tail) == Translate(Runes(s)) + tail
    decreases |s|
  {
    if s == [] {
      AsciiOnly(tail);
      assert Translate(s) + tail == tail;
    } else {
      var rest := s[CharLen(s)..];
      RunesOfTranslated(rest, tail);
      TranslatedStep(s, tail);
      TranslateOne(RuneOf(s), Runes(rest));
      assert Spell(RuneOf(s)) + (Translate(Runes(rest)) + tail) == Spell(RuneOf(s)) + Translate(Runes(rest)) + tail;
    }
  }

  /** A character of several octets that starts the translated text starts the text. */
  lemma TranslateKeepsStart(s: string, tail: string)
    requires tail == [] || tail == "$"
    requires CharLen(Translate(s) + tail) > 1
    ensures CharLen(s) == CharLen(Translate(s) + tail)
  {
    var e := Translate(s) + tail;
    var n := CharLen(e);
    CharShape(e);
    HighPrefix(s, tail, e, n);
    CharLenLocal(e, n);
    assert e[..n] <= s;
    CharLenExtends(e[..n], s);
  }

  lemma TranslateKeepsIllFormed(s: string, tail: string)
    requires s != [] && CharLen(s) == 0 && (tail == [] || tail == "$")
    ensures CharLen(Translate(s) + tail) == 0
  {
    var e := Translate(s) + tail;
    assert e[0] == s[0];
    if CharLen(e) > 1 {
      TranslateKeepsStart(s, tail);
    }
  }

  lemma HighFirst(s: string, tail: string)
    requires Translate(s) + tail != [] && (Translate(s) + tail)[0] as int >= 0x80 && (tail == [] || tail == "$")
    ensures s != [] && Translate(s) + tail == [s[0]] + (Translate(s[1..]) + tail)
  {
    assert s != [];
    assert Translate(s)[0] == Spell(s[0])[0];
    Regroup([s[0]], Translate(s[1..]), tail);
  }

  lemma {:induction false} HighPrefix(s: string, tail: string, e: string, n: nat)
    requires e == Translate(s) + tail && n <= |e| && (tail == [] || tail == "$")
    requires forall k :: 0 <= k < n ==> e[k] as int >= 0x80
    ensures n <= |s| && forall k :: 0 <= k < n ==> e[k] == s[k]
  {
    if n > 0 {
      HighFirst(s, tail);
      HighPrefix(s[1..], tail, e[1..], n - 1);
      assert forall k :: 0 < k < n ==> e[k] == e[1..][k - 1] && s[k] == s[1..][k - 1];
    }
  }

  lemma {:induction false} IllFormedTranslated(s: string, tail: string)
    requires !WellFormed(s) && (tail == [] || tail == "$")
    ensures !WellFormed(Translate(s) + tail)
    decreases |s|
  {
    if CharLen(s) == 0 {
      TranslateKeepsIllFormed(s, tail);
      assert Translate(s) != [];
    } else {
      IllFormedTranslated(s[CharLen(s)..], tail);
      TranslatedStep(s, tail);
    }
  }

  /** The text that the code builds is an expression exactly if the pattern decodes to well-formed UTF-8; and
      then it reads as the start, the pattern's characters and runs, and the end if anchored. */
  lemma CompiledItems(pattern: string)
    ensures IsExpr(CompileExpr(pattern)) <==> Compiles(pattern)
    ensures Compiles(pattern) ==>
              ReadExpr(Runes(CompileExpr(pattern)))
              == Some([Begin] + ItemsOf(TokensOf(Runes(Unescape(Body(pattern))))) + EndItems(Anchored(pattern)))
  {
    var s := Unescape(Body(pattern));
    var tail := if Anchored(pattern) then "$" else "";
    var e := Translate(s) + tail;
    SplitQuoteJoin(s);
    assert CompileExpr(pattern) == ['^'] + e;
    AsciiFirst('^', e);
    if WellFormed(s) {
      RunesOfTranslated(s, tail);
      ReadTranslated(Runes(s), tail);
      assert (['^'] + Runes(e))[1..] == Runes(e);
      var items := ItemsOf(TokensOf(Runes(s)));
      assert [Begin] + (items + EndItems(Anchored(pattern))) == [Begin] + items + EndItems(Anchored(pattern));
    } else {
      IllFormedTranslated(s, tail);
    }
  }

  // -------------------------------------- items match as tokens do

  lemma {:induction false} ItemsMatch(toks: seq<Tok>, anchored: bool, s: string, i: nat)
    requires i <= |s|
    ensures MatchesAt(ItemsOf(toks) + EndItems(anchored), s, i) <==> Wildcard(toks, anchored, s[i..], false)
    decreases |toks|, |s| - i
  {
    var items := ItemsOf(toks) + EndItems(anchored);
    var t := s[i..];
    if toks == [] {
      assert items == EndItems(anchored);
      assert anchored ==> items[1..] == [];
    } else {
      assert items[1..] == ItemsOf(toks[1..]) + EndItems(anchored);
      match toks[0]
      case Ch(c) =>
        if i < |s| {
          ItemsMatch(toks[1..], anchored, s, i + 1);
          assert t[1..] == s[i + 1..];
        }
      case Wild =>
        ItemsMatch(toks[1..], anchored, s, i);
        if i < |s| {
          ItemsMatch(toks, anchored, s, i + 1);
        }
        StarUnfolds(toks, anchored, t);
    }
  }

  /** A run is empty, or one more character that is not a newline. */
  lemma StarUnfolds(toks: seq<Tok>, anchored: bool, t: string)
    requires toks != [] && toks[0].Wild?
    ensures Wildcard(toks, anchored, t, false) <==>
              (|| Wildcard(toks[1..], anchored, t, false)
               || (t != [] && t[0] != '\n' && Wildcard(toks, anchored, t[1..], false)))
  {
    if Wildcard(toks, anchored, t, false) {
      var k :| 0 <= k <= |t| && '\n' !in t[..k] && Wildcard(toks[1..], anchored, t[k..], false);
      if k == 0 {
        assert t[0..] == t;
      } else {
        assert t[0] in t[..k];
        RunExtends(toks, anchored, t, k);
      }
    }
    if Wildcard(toks[1..], anchored, t, false) {
      assert t[0..] == t && '\n' !in t[..0];
    }
    if t != [] && t[0] != '\n' && Wildcard(toks, anchored, t[1..], false) {
      var k :| 0 <= k <= |t| - 1 && '\n' !in t[1..][..k] && Wildcard(toks[1..], anchored, t[1..][k..], false);
      RunExtends(toks, anchored, t, k + 1);
    }
  }

  lemma RunExtends(toks: seq<Tok>, anchored: bool, t: string, k: nat)
    requires toks != [] && toks[0].Wild? && 0 < k <= |t| && t[0] != '\n'
    ensures t[1..][k - 1..] == t[k..]
    ensures '\n' in t[1..][..k - 1] <==> '\n' in t[..k]
    ensures '\n' !in t[..k] && Wildcard(toks[1..], anchored, t[k..], false) ==>
              Wildcard(toks, anchored, t, false) && Wildcard(toks, anchored, t[1..], false)
  {
    assert t[1..][k - 1..] == t[k..];
    assert t[..k] == [t[0]] + t[1..][..k - 1];
  }

  lemma ItemsDecide(toks: seq<Tok>, anchored: bool, t: string)
    ensures MatchString([Begin] + ItemsOf(toks) + EndItems(anchored), t) <==> Wildcard(toks, anchored, t, false)
  {
    var tail := ItemsOf(toks) + EndItems(anchored);
    var items := [Begin] + ItemsOf(toks) + EndItems(anchored);
    ItemsMatch(toks, anchored, t, 0);
    assert t[0..] == t;
    assert items[0] == Begin && items[1..] == tail;
    assert MatchesAt(items, t, 0) <==> MatchesAt(tail, t, 0);
  }

  /** The translation preserves meaning, for every pattern that compiles and every string: the expression the
      code builds matches exactly when the decoded pattern matches character by character, no run crossing a
      newline. A pattern that does not compile matches nothing here. */
  lemma CompileCorrect(pattern: string, s: string)
    ensures CodeMatches(pattern, s) <==>
              && Compiles(pattern)
              && Wildcard(TokensOf(Runes(Unescape(Body(pattern)))), Anchored(pattern), Runes(s), false)
  {
    CompiledItems(pattern);
    if Compiles(pattern) {
      ItemsDecide(TokensOf(Runes(Unescape(Body(pattern)))), Anchored(pattern), Runes(s));
    }
  }

  // ------------------------------------------------ matching step by step

  /** Characters that stand for themselves. */
  function Plain(part: string): (t: seq<Tok>)
    ensures |t| == |part|
  {
    if part == [] then [] else [Ch(part[0])] + Plain(part[1..])
  }

  lemma {:induction false} PlainMatches(part: string, toks: seq<Tok>, anchored: bool, s: string, cross: bool)
    ensures Wildcard(Plain(part) + toks, anchored, s, cross) <==>
              part <= s && Wildcard(toks, anchored, s[|part|..], cross)
  {
    if part == [] {
      assert Plain(part) + toks == toks && s[0..] == s;
    } else {
      assert (Plain(part) + toks)[1..] == Plain(part[1..]) + toks;
      if s != [] && s[0] == part[0] {
        PlainMatches(part[1..], toks, anchored, s[1..], cross);
        assert part <= s <==> part[1..] <= s[1..] by {
          assert part == [part[0]] + part[1..] && s == [s[0]] + s[1..];
        }
        if part <= s {
          assert s[1..][|part| - 1..] == s[|part|..];
        }
      }
    }
  }

  /** A run reaches to `k`, and the rest matches from there. */
  ghost predicate RunThen(toks: seq<Tok>, anchored: bool, s: string, k: nat, cross: bool)
    requires k <= |s|
  {
    (cross || '\n' !in s[..k]) && Wildcard(toks, anchored, s[k..], cross)
  }

  lemma RunMatches(toks: seq<Tok>, anchored: bool, s: string, cross: bool)
    ensures Wildcard([Wild] + toks, anchored, s, cross) <==>
              exists k :: 0 <= k <= |s| && RunThen(toks, anchored, s, k, cross)
  {
    assert ([Wild] + toks)[1..] == toks;
    if k :| 0 <= k <= |s| && (cross || '\n' !in s[..k]) && Wildcard(toks, anchored, s[k..], cross) {
      assert RunThen(toks, anchored, s, k, cross);
    }
  }

  /** What matches behind a run matches from any earlier place that the run may start from. */
  lemma {:induction false} EarlierRun(toks: seq<Tok>, anchored: bool, s: string, i: nat, j: nat, cross: bool)
    requires i <= j <= |s| && (cross || '\n' !in s[i..j])
    requires Wildcard([Wild] + toks, anchored, s[j..], cross)
    ensures Wildcard([Wild] + toks, anchored, s[i..], cross)
  {
    RunMatches(toks, anchored, s[j..], cross);
    var k :| 0 <= k <= |s[j..]| && RunThen(toks, anchored, s[j..], k, cross);
    assert s[i..][..j - i + k] == s[i..j] + s[j..][..k];
    assert s[i..][j - i + k..] == s[j..][k..];
    assert RunThen(toks, anchored, s[i..], j - i + k, cross);
    RunMatches(toks, anchored, s[i..], cross);
  }

  /** The shortest string matched: every run empty. */
  function Literals(toks: seq<Tok>): string {
    if toks == [] then [] else (if toks[0].Wild? then [] else [toks[0].c]) + Literals(toks[1..])
  }
}
