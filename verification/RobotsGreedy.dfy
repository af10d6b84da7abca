/** internal/robots/robots.go, compile: the matching that its expressions decide, as a search without
    backtracking. Each part of a pattern between two stars is taken at the first place where it occurs. */
module RobotsGreedy {
  import opened Commons
  import opened Utf8
  import opened RobotsPattern

  /** The part stands at position `k`, and a run may reach from the start to there. */
  predicate StandsAt(part: string, s: string, k: nat)
    requires k <= |s|
  {
    part <= s[k..] && '\n' !in s[..k]
  }

  /** The first place from `k` on where the part stands. */
  function FindFrom(part: string, s: string, k: nat): (r: Option<nat>)
    requires k <= |s|
    ensures r.Some? ==> k <= r.value <= |s| && StandsAt(part, s, r.value)
    ensures r.Some? ==> forall j :: k <= j < r.value ==> !StandsAt(part, s, j)
    ensures r.None? ==> forall j :: k <= j <= |s| ==> !StandsAt(part, s, j)
    decreases |s| - k
  {
    if StandsAt(part, s, k) then Some(k) else if k == |s| then None else FindFrom(part, s, k + 1)
  }

  /** The parts in turn, each after a run, and the last at the end of the string if anchored. */
  predicate TakeParts(parts: seq<string>, anchored: bool, s: string)
    decreases |parts|
  {
    if parts == [] then anchored ==> s == []
    else if |parts| == 1 && anchored then
      |parts[0]| <= |s| && StandsAt(parts[0], s, |s| - |parts[0]|)
    else
      var first := FindFrom(parts[0], s, 0);
      first.Some? && TakeParts(parts[1..], anchored, s[first.value + |parts[0]|..])
  }

  /** The first part at the start, then the others. */
  predicate Greedy(parts: seq<string>, anchored: bool, s: string)
    requires parts != []
  {
    && parts[0] <= s
    && TakeParts(parts[1..], anchored, s[|parts[0]|..])
  }

  // ----------------------------------------------------- parts as tokens

  /** The parts, each behind a run. */
  function Runs(parts: seq<string>): seq<Tok> {
    if parts == [] then [] else [Wild] + Plain(parts[0]) + Runs(parts[1..])
  }

  lemma RunsUnfold(parts: seq<string>)
    requires parts != []
    ensures Runs(parts) == [Wild] + (Plain(parts[0]) + Runs(parts[1..]))
  {
    assert [Wild] + Plain(parts[0]) + Runs(parts[1..]) == [Wild] + (Plain(parts[0]) + Runs(parts[1..]));
  }

  lemma NoToken(toks: seq<Tok>)
    ensures Plain([]) + toks == toks
  {
  }

  lemma CharTokens(c: char, part: string, toks: seq<Tok>)
    ensures Plain([c] + part) + toks == [Ch(c)] + (Plain(part) + toks)
  {
    assert ([c] + part)[1..] == part;
    assert [Ch(c)] + Plain(part) + toks == [Ch(c)] + (Plain(part) + toks);
  }

  lemma {:induction false} SplitTokens(body: string)
    ensures TokensOf(body) == Plain(Split(body)[0]) + Runs(Split(body)[1..])
  {
    if body == [] {
      assert Plain([]) + Runs([]) == [];
    } else {
      SplitTokens(body[1..]);
      var rest := Split(body[1..]);
      if body[0] == '*' {
        RunsUnfold(rest);
        NoToken(Runs(rest));
        assert Split(body)[0] == [] && Split(body)[1..] == rest;
      } else {
        CharTokens(body[0], rest[0], Runs(rest[1..]));
        assert Split(body)[0] == [body[0]] + rest[0] && Split(body)[1..] == rest[1..];
      }
    }
  }

  ghost predicate PartThen(part: string, toks: seq<Tok>, anchored: bool, s: string, k: nat)
    requires k <= |s|
  {
    StandsAt(part, s, k) && Wildcard(toks, anchored, s[k + |part|..], false)
  }

  lemma PartAt(part: string, toks: seq<Tok>, anchored: bool, s: string, k: nat)
    requires k <= |s|
    ensures RunThen(Plain(part) + toks, anchored, s, k, false) <==> PartThen(part, toks, anchored, s, k)
  {
    PlainMatches(part, toks, anchored, s[k..], false);
    if part <= s[k..] {
      assert s[k..][|part|..] == s[k + |part|..];
    }
  }

  ghost predicate FirstThenOthers(part: string, parts: seq<string>, anchored: bool, s: string) {
    exists k :: 0 <= k <= |s| && PartThen(part, Runs(parts), anchored, s, k)
  }

  lemma FirstRunMatches(part: string, parts: seq<string>, anchored: bool, s: string)
    ensures Wildcard([Wild] + (Plain(part) + Runs(parts)), anchored, s, false) <==>
              FirstThenOthers(part, parts, anchored, s)
  {
    var toks := Plain(part) + Runs(parts);
    RunMatches(toks, anchored, s, false);
    if k :| 0 <= k <= |s| && RunThen(toks, anchored, s, k, false) {
      PartAt(part, Runs(parts), anchored, s, k);
    }
    if k :| 0 <= k <= |s| && PartThen(part, Runs(parts), anchored, s, k) {
      PartAt(part, Runs(parts), anchored, s, k);
    }
  }

  // ------------------------------------------------ the first place is enough

  /** Between the ends of two places of a part there is no newline: the later place is within reach of a run,
      and the part stands at both. */
  lemma NoNewlineBetween(part: string, s: string, i: nat, j: nat)
    requires i <= j <= |s| && StandsAt(part, s, i) && StandsAt(part, s, j)
    ensures i + |part| <= j + |part| <= |s| && '\n' !in s[i + |part|..j + |part|]
  {
    forall q | i + |part| <= q < j + |part|
      ensures s[q] != '\n'
    {
      if q < j {
        assert s[..j][q] == s[q];
      } else {
        assert s[j..][q - j] == part[q - j];
        if s[q] == '\n' {
          NewlineStandsOnce(part, s, i, j, q - j);
        }
      }
    }
  }

  /** A part with a newline stands at one place only: at the later one, the newline would be behind it. */
  lemma {:induction false} NewlineStandsOnce(part: string, s: string, i: nat, j: nat, q: nat)
    requires i < j <= |s| && StandsAt(part, s, i) && StandsAt(part, s, j)
    requires q < |part| && part[q] == '\n'
    ensures false
    decreases q
  {
    assert s[i..][q] == part[q];
    assert s[i + q] == '\n';
    if i + q >= j {
      var r := i + q - j;
      assert s[j..][r] == part[r];
      NewlineStandsOnce(part, s, i, j, r);
    }
  }

  /** The last part of an anchored pattern can stand at the end of the string only. */
  lemma LastAtEnd(part: string, s: string)
    ensures FirstThenOthers(part, [], true, s) <==> |part| <= |s| && StandsAt(part, s, |s| - |part|)
  {
    if k :| 0 <= k <= |s| && PartThen(part, Runs([]), true, s, k) {
      assert k + |part| == |s|;
    }
    if |part| <= |s| && StandsAt(part, s, |s| - |part|) {
      assert s[|s|..] == [];
      assert PartThen(part, Runs([]), true, s, |s| - |part|);
    }
  }

  /** If the part and what follows match from some place, they match from the first. */
  lemma FirstPlaceIsEnough(part: string, parts: seq<string>, anchored: bool, s: string, first: nat, k: nat)
    requires first <= k <= |s| && StandsAt(part, s, first) && PartThen(part, Runs(parts), anchored, s, k)
    requires parts != [] || !anchored
    ensures PartThen(part, Runs(parts), anchored, s, first)
  {
    if parts != [] {
      RunsUnfold(parts);
      NoNewlineBetween(part, s, first, k);
      EarlierRun(Plain(parts[0]) + Runs(parts[1..]), anchored, s, first + |part|, k + |part|, false);
    }
  }

  lemma FirstPlaceDecides(part: string, parts: seq<string>, anchored: bool, s: string)
    requires parts != [] || !anchored
    ensures FirstThenOthers(part, parts, anchored, s) <==>
              var first := FindFrom(part, s, 0);
              first.Some? && PartThen(part, Runs(parts), anchored, s, first.value)
  {
    if k :| 0 <= k <= |s| && PartThen(part, Runs(parts), anchored, s, k) {
      FirstPlaceIsEnough(part, parts, anchored, s, FindFrom(part, s, 0).value, k);
    }
  }

  lemma {:induction false} TakesWhatMatches(parts: seq<string>, anchored: bool, s: string)
    ensures TakeParts(parts, anchored, s) <==> Wildcard(Runs(parts), anchored, s, false)
    decreases |parts|
  {
    if parts != [] {
      RunsUnfold(parts);
      FirstRunMatches(parts[0], parts[1..], anchored, s);
      if |parts| == 1 && anchored {
        assert parts[1..] == [];
        LastAtEnd(parts[0], s);
      } else {
        FirstPlaceDecides(parts[0], parts[1..], anchored, s);
        TakesFirst(parts, anchored, s);
      }
    }
  }

  /** Taking the first part where it first stands. */
  lemma {:induction false} TakesFirst(parts: seq<string>, anchored: bool, s: string)
    requires parts != [] && !(|parts| == 1 && anchored)
    ensures var first := FindFrom(parts[0], s, 0);
            TakeParts(parts, anchored, s) <==>
              first.Some? && PartThen(parts[0], Runs(parts[1..]), anchored, s, first.value)
    decreases |parts|, 0
  {
    var first := FindFrom(parts[0], s, 0);
    if first.Some? {
      TakesWhatMatches(parts[1..], anchored, s[first.value + |parts[0]|..]);
    }
  }

  /** The search without backtracking decides what the expression of the code decides, for every pattern that
      compiles and every string, both read as characters. */
  lemma GreedyDecides(pattern: string, s: string)
    requires Compiles(pattern)
    ensures Greedy(Split(Runes(Unescape(Body(pattern)))), Anchored(pattern), Runes(s)) <==> CodeMatches(pattern, s)
  {
    var body, t := Runes(Unescape(Body(pattern))), Runes(s);
    var parts := Split(body);
    CompileCorrect(pattern, s);
    SplitTokens(body);
    PlainMatches(parts[0], Runs(parts[1..]), Anchored(pattern), t, false);
    if parts[0] <= t {
      TakesWhatMatches(parts[1..], Anchored(pattern), t[|parts[0]|..]);
    }
  }
}
