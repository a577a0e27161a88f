/**
 * Text written into Typst markup: escaping, spacing and soft breaks, and what undoing them
 * gives back.
 *
 * Text without a no-break space or a zero-width space comes back when the escaped form is
 * unescaped and its soft breaks are dropped. No break splits an escape from the character
 * it escapes, and inside a broken run no chunk is longer than the limit.
 *
 * Characters are UTF-16 code units, as in the program.
 */
module TypstText {
  import opened SeqFacts

  const NBSP: char := '\U{a0}'
  const ZWSP: char := '\U{200b}'

  /** Characters that can start or alter markup. */
  predicate Special(c: char) {
    c in "\\#*_`$[]@<>~/=+-"
  }

  /** White space as the language's patterns have it. */
  predicate IsSpace(c: char) {
    '\U{9}' <= c <= '\U{d}' || c == ' ' || c == NBSP || c == '\U{1680}' || '\U{2000}' <= c <= '\U{200a}'
    || c == '\U{2028}' || c == '\U{2029}' || c == '\U{202f}' || c == '\U{205f}' || c == '\U{3000}' || c == '\U{feff}'
  }

  predicate EndsLine(c: char) {
    c == '\n' || c == '\r' || c == '\U{2028}' || c == '\U{2029}'
  }

  // ----- the passes of escContent -----

  function EscapeSpecials(s: string): string {
    if s == "" then ""
    else (if Special(s[0]) then ['\\', s[0]] else [s[0]]) + EscapeSpecials(s[1..])
  }

  /** Spaces at the start of a line become non-breaking. */
  function LeadingSpaces(s: string, atStart: bool): string {
    if s == "" then ""
    else if s[0] == ' ' && atStart then [NBSP] + LeadingSpaces(s[1..], true)
    else [s[0]] + LeadingSpaces(s[1..], EndsLine(s[0]))
  }

  function SpaceRun(s: string): (n: nat)
    ensures n <= |s|
  {
    if s == "" || s[0] != ' ' then 0 else 1 + SpaceRun(s[1..])
  }

  function Repeat(c: char, n: nat): string {
    seq(n, _ => c)
  }

  /** Runs of two or more spaces become non-breaking. */
  function SpaceRuns(s: string): string
    decreases |s|
  {
    if s == "" then ""
    else if SpaceRun(s) >= 2 then Repeat(NBSP, SpaceRun(s)) + SpaceRuns(s[SpaceRun(s)..])
    else [s[0]] + SpaceRuns(s[1..])
  }

  function WordRun(s: string): (n: nat)
    ensures n <= |s|
  {
    if s == "" || IsSpace(s[0]) then 0 else 1 + WordRun(s[1..])
  }

  /** How much of a run is emitted at once: an escape pair, or one character. */
  function UnitOf(run: string): (n: nat)
    requires run != ""
    ensures 1 <= n <= |run|
  {
    if run[0] == '\\' && |run| > 1 then 2 else 1
  }

  const EVERY: nat := 20

  /** Enough was emitted since the last break, and more is to come. */
  predicate BreaksAfter(run: string, since: nat)
    requires run != ""
  {
    since + UnitOf(run) >= EVERY && UnitOf(run) < |run|
  }

  function Head(run: string, since: nat): string
    requires run != ""
  {
    if BreaksAfter(run, since) then run[..UnitOf(run)] + [ZWSP] else run[..UnitOf(run)]
  }

  function Since(run: string, since: nat): nat
    requires run != ""
  {
    if BreaksAfter(run, since) then 0 else since + UnitOf(run)
  }

  function SoftBreaks(run: string, since: nat): string
    decreases |run|
  {
    if run == "" then "" else Head(run, since) + SoftBreaks(run[UnitOf(run)..], Since(run, since))
  }

  /** Runs of forty or more characters without white space get soft breaks. */
  function BreakRuns(s: string): string
    decreases |s|
  {
    if s == "" then ""
    else if WordRun(s) == 0 then [s[0]] + BreakRuns(s[1..])
    else
      var n := WordRun(s);
      (if n >= 40 then SoftBreaks(s[..n], 0) else s[..n]) + BreakRuns(s[n..])
  }

  function Spaced(s: string): string {
    SpaceRuns(LeadingSpaces(EscapeSpecials(s), true))
  }

  function EscContent(s: string): string {
    BreakRuns(Spaced(s))
  }

  /** The unit at `i`, and the break after it, in terms of the whole run. */
  lemma UnitAt(out: string, run: string, i: nat, since: nat)
    requires i < |run|
    ensures var n := if run[i] == '\\' && i + 1 < |run| then 2 else 1;
            var broken := since + n >= EVERY && i + n < |run|;
            && i + n <= |run|
            && out + SoftBreaks(run[i..], since)
               == (if broken then (out + run[i..i + n]) + [ZWSP] else out + run[i..i + n])
                  + SoftBreaks(run[i + n..], if broken then 0 else since + n)
  {
    var rest := run[i..];
    var n := UnitOf(rest);
    assert rest[n..] == run[i + n..] && rest[..n] == run[i..i + n];
    SoftCons(rest, since);
    Assoc(out, Head(rest, since), SoftBreaks(rest[n..], Since(rest, since)));
    Assoc(out, rest[..n], [ZWSP]);
    hide SoftBreaks;
  }

  /** `insertSoftBreaks` as the loop it is. */
  method InsertSoftBreaks(run: string) returns (out: string)
    ensures out == SoftBreaks(run, 0)
  {
    hide SoftBreaks;
    out := "";
    var since: nat, i: nat := 0, 0;
    assert run[0..] == run && "" + SoftBreaks(run, 0) == SoftBreaks(run, 0);
    while i < |run|
      invariant i <= |run|
      invariant out + SoftBreaks(run[i..], since) == SoftBreaks(run, 0)
    {
      UnitAt(out, run, i, since);
      var n := if run[i] == '\\' && i + 1 < |run| then 2 else 1;
      out := out + run[i..i + n];
      since := since + n;
      if since >= EVERY && i + n < |run| {
        out := out + [ZWSP];
        since := 0;
      }
      i := i + n;
    }
    NothingLeft(out, run, since);
  }

  lemma NothingLeft(out: string, run: string, since: nat)
    ensures out + SoftBreaks(run[|run|..], since) == out
  {
  }

  // ----- undoing it -----

  /** Drops the backslash before each special character. */
  function StripEscapes(s: string): string
    decreases |s|
  {
    if s == "" then ""
    else if s[0] == '\\' && |s| > 1 && Special(s[1]) then [s[1]] + StripEscapes(s[2..])
    else [s[0]] + StripEscapes(s[1..])
  }

  function PlainSpaces(s: string): string {
    if s == "" then "" else [if s[0] == NBSP then ' ' else s[0]] + PlainSpaces(s[1..])
  }

  function UnescapeContent(s: string): string {
    PlainSpaces(StripEscapes(s))
  }

  function DropBreaks(s: string): string {
    if s == "" then "" else (if s[0] == ZWSP then "" else [s[0]]) + DropBreaks(s[1..])
  }

  // ----- escaping and spacing -----

  lemma {:induction false} StripOfEscape(s: string)
    ensures StripEscapes(EscapeSpecials(s)) == s
  {
    if s != "" {
      StripOfEscape(s[1..]);
      assert s == [s[0]] + s[1..];
      var e, rest := EscapeSpecials(s), EscapeSpecials(s[1..]);
      if Special(s[0]) {
        assert e[2..] == rest && e[0] == '\\' && e[1] == s[0];
      } else {
        assert e[1..] == rest && e[0] == s[0];
      }
    }
  }

  lemma {:induction false} PlainAppend(a: string, b: string)
    ensures PlainSpaces(a + b) == PlainSpaces(a) + PlainSpaces(b)
  {
    if a == "" {
      assert a + b == b;
    } else {
      assert (a + b)[1..] == a[1..] + b;
      PlainAppend(a[1..], b);
    }
  }

  lemma {:induction false} LeadingIsPlain(s: string, atStart: bool)
    ensures PlainSpaces(LeadingSpaces(s, atStart)) == PlainSpaces(s)
  {
    if s != "" {
      LeadingIsPlain(s[1..], if s[0] == ' ' && atStart then true else EndsLine(s[0]));
      assert LeadingSpaces(s, atStart)[1..] == LeadingSpaces(s[1..], if s[0] == ' ' && atStart then true else EndsLine(s[0]));
    }
  }

  lemma {:induction false} PlainRun(s: string)
    ensures PlainSpaces(Repeat(NBSP, SpaceRun(s))) == PlainSpaces(s[..SpaceRun(s)])
  {
    if s != "" && s[0] == ' ' {
      PlainRun(s[1..]);
      var n := SpaceRun(s);
      assert s[..n][1..] == s[1..][..n - 1];
      assert Repeat(NBSP, n)[1..] == Repeat(NBSP, n - 1);
    }
  }

  lemma {:induction false} RunsArePlain(s: string)
    ensures PlainSpaces(SpaceRuns(s)) == PlainSpaces(s)
    decreases |s|
  {
    if s != "" {
      var n := SpaceRun(s);
      if n >= 2 {
        RunsArePlain(s[n..]);
        PlainRun(s);
        PlainAppend(Repeat(NBSP, n), SpaceRuns(s[n..]));
        PlainAppend(s[..n], s[n..]);
        assert s == s[..n] + s[n..];
      } else {
        RunsArePlain(s[1..]);
        assert SpaceRuns(s)[1..] == SpaceRuns(s[1..]);
      }
    }
  }

  lemma PlainHead(s: string)
    ensures |PlainSpaces(s)| == |s|
    ensures s != "" ==> PlainSpaces(s)[0] == (if s[0] == NBSP then ' ' else s[0]) && PlainSpaces(s)[1..] == PlainSpaces(s[1..])
  {
  }

  lemma SpacesAreNotSpecial()
    ensures !Special(' ') && !Special(NBSP) && NBSP != '\\'
  {
  }

  /** Spaces are never part of an escape, so the two kinds of undoing commute. */
  lemma {:induction false} PlainCommutes(s: string)
    ensures PlainSpaces(StripEscapes(s)) == StripEscapes(PlainSpaces(s))
    decreases |s|
  {
    SpacesAreNotSpecial();
    hide Special;
    if s != "" {
      PlainHead(s);
      PlainHead(s[1..]);
      var p := PlainSpaces(s);
      if s[0] == '\\' && |s| > 1 && Special(s[1]) {
        PlainCommutes(s[2..]);
        assert s[1..][1..] == s[2..];
        assert p[1] == s[1] && p[2..] == PlainSpaces(s[2..]) by {
          assert p[1..][0] == p[1] && p[1..][1..] == p[2..];
        }
        assert StripEscapes(s)[1..] == StripEscapes(s[2..]);
      } else {
        PlainCommutes(s[1..]);
        assert |s| > 1 ==> p[1] == p[1..][0] == (if s[1] == NBSP then ' ' else s[1]);
        assert StripEscapes(s)[1..] == StripEscapes(s[1..]);
      }
    }
  }

  lemma {:induction false} PlainAlready(s: string)
    requires NBSP !in s
    ensures PlainSpaces(s) == s
  {
    if s != "" {
      PlainAlready(s[1..]);
      assert s == [s[0]] + s[1..];
    }
  }

  lemma {:induction false} EscapeAddsNone(s: string, c: char)
    requires c !in s && c != '\\'
    ensures c !in EscapeSpecials(s)
  {
    if s != "" {
      EscapeAddsNone(s[1..], c);
      assert s[0] in s;
    }
  }

  /** Without breaks, unescaping gives the text back. */
  lemma SpacedIsUndone(s: string)
    requires NBSP !in s
    ensures UnescapeContent(Spaced(s)) == s
  {
    hide PlainSpaces, StripEscapes, EscapeSpecials, LeadingSpaces, SpaceRuns;
    var e := EscapeSpecials(s);
    var l := LeadingSpaces(e, true);
    PlainCommutes(SpaceRuns(l));
    RunsArePlain(l);
    LeadingIsPlain(e, true);
    EscapeAddsNone(s, NBSP);
    PlainAlready(e);
    StripOfEscape(s);
  }

  // ----- breaks -----

  lemma {:induction false} DropAppend(a: string, b: string)
    ensures DropBreaks(a + b) == DropBreaks(a) + DropBreaks(b)
  {
    if a == "" {
      assert a + b == b;
    } else {
      assert (a + b)[1..] == a[1..] + b;
      DropAppend(a[1..], b);
    }
  }

  lemma {:induction false} DropNothing(s: string)
    requires ZWSP !in s
    ensures DropBreaks(s) == s
  {
    if s != "" {
      DropNothing(s[1..]);
      assert s == [s[0]] + s[1..];
    }
  }

  lemma DropHead(run: string, since: nat)
    requires run != "" && ZWSP !in run
    ensures DropBreaks(Head(run, since)) == run[..UnitOf(run)]
  {
    DropNothing(run[..UnitOf(run)]);
    DropAppend(run[..UnitOf(run)], [ZWSP]);
    DropOne();
    hide DropBreaks;
    assert run[..UnitOf(run)] + "" == run[..UnitOf(run)];
  }

  lemma SoftCons(run: string, since: nat)
    requires run != ""
    ensures SoftBreaks(run, since) == Head(run, since) + SoftBreaks(run[UnitOf(run)..], Since(run, since))
  {
    hide Head, Since;
  }

  lemma Parted(s: string, n: nat)
    requires n <= |s|
    ensures s == s[..n] + s[n..]
    ensures ZWSP !in s ==> ZWSP !in s[..n] && ZWSP !in s[n..]
  {
  }

  lemma {:induction false} SoftBreaksDrop(run: string, since: nat)
    requires ZWSP !in run
    ensures DropBreaks(SoftBreaks(run, since)) == run
    decreases |run|
  {
    if run != "" {
      hide *;
      Parted(run, UnitOf(run));
      SoftBreaksDrop(run[UnitOf(run)..], Since(run, since));
      DropHead(run, since);
      DropAppend(Head(run, since), SoftBreaks(run[UnitOf(run)..], Since(run, since)));
      SoftCons(run, since);
    }
  }

  lemma DropOne()
    ensures DropBreaks([ZWSP]) == ""
  {
    assert [ZWSP][1..] == "";
  }

  lemma RunsOpen(s: string, n: nat)
    requires s != "" && n == if WordRun(s) == 0 then 1 else WordRun(s)
    ensures 0 < n <= |s|
    ensures BreakRuns(s) == s[..n] + BreakRuns(s[n..]) || BreakRuns(s) == SoftBreaks(s[..n], 0) + BreakRuns(s[n..])
  {
    hide SoftBreaks;
    assert s[..1] == [s[0]];
  }

  lemma DropStep(head: string, broken: string, rest: string)
    requires ZWSP !in head && DropBreaks(broken) == rest
    ensures DropBreaks(head + broken) == head + rest && DropBreaks(SoftBreaks(head, 0) + broken) == head + rest
  {
    hide *;
    SoftBreaksDrop(head, 0);
    DropNothing(head);
    DropAppend(head, broken);
    DropAppend(SoftBreaks(head, 0), broken);
  }

  lemma {:induction false} BreakRunsDrop(s: string)
    requires ZWSP !in s
    ensures DropBreaks(BreakRuns(s)) == s
    decreases |s|
  {
    if s == "" {
      assert BreakRuns(s) == "" == DropBreaks("");
    } else {
      hide *;
      var n := if WordRun(s) == 0 then 1 else WordRun(s);
      RunsOpen(s, n);
      Parted(s, n);
      BreakRunsDrop(s[n..]);
      DropStep(s[..n], BreakRuns(s[n..]), s[n..]);
    }
  }

  lemma {:induction false} LeadingAddsNone(s: string, atStart: bool, c: char)
    requires c !in s && c != NBSP
    ensures c !in LeadingSpaces(s, atStart)
  {
    if s != "" {
      LeadingAddsNone(s[1..], true, c);
      LeadingAddsNone(s[1..], EndsLine(s[0]), c);
      assert s[0] in s;
    }
  }

  lemma {:induction false} RunsAddNone(s: string, c: char)
    requires c !in s && c != NBSP
    ensures c !in SpaceRuns(s)
    decreases |s|
  {
    if s != "" {
      RunsAddNone(s[1..], c);
      assert s[0] in s;
      if SpaceRun(s) >= 2 {
        RunsAddNone(s[SpaceRun(s)..], c);
      }
    }
  }

  lemma SpacedAddsNone(s: string, c: char)
    requires c !in s && c != NBSP && c != '\\'
    ensures c !in Spaced(s)
  {
    EscapeAddsNone(s, c);
    LeadingAddsNone(EscapeSpecials(s), true, c);
    RunsAddNone(LeadingSpaces(EscapeSpecials(s), true), c);
    hide EscapeSpecials, LeadingSpaces, SpaceRuns;
  }

  /** Dropping the breaks and unescaping gives the authored text back. */
  lemma EscapingIsUndone(s: string)
    requires NBSP !in s && ZWSP !in s
    ensures UnescapeContent(DropBreaks(EscContent(s))) == s
  {
    hide Spaced, UnescapeContent, DropBreaks, BreakRuns;
    SpacedAddsNone(s, ZWSP);
    BreakRunsDrop(Spaced(s));
    SpacedIsUndone(s);
  }

  // ----- unescaping alone -----

  predicate LongRun(s: string)
    decreases |s|
  {
    s != "" && (WordRun(s) >= 40 || LongRun(s[1..]))
  }

  lemma {:induction false} WordRunTail(s: string)
    requires s != ""
    ensures WordRun(s) > 0 ==> WordRun(s[1..]) == WordRun(s) - 1
  {
  }

  lemma {:induction false} ShortAfter(s: string, n: nat)
    requires n <= WordRun(s) < 40
    ensures LongRun(s[n..]) <==> LongRun(s)
  {
    if n > 0 {
      WordRunTail(s);
      ShortAfter(s[1..], n - 1);
      assert s[1..][n - 1..] == s[n..];
    } else {
      assert s[0..] == s;
    }
  }

  lemma {:induction false} NoRunNoBreak(s: string)
    requires !LongRun(s)
    ensures BreakRuns(s) == s
    decreases |s|
  {
    if s != "" {
      var n := if WordRun(s) == 0 then 1 else WordRun(s);
      if WordRun(s) > 0 {
        ShortAfter(s, n);
      }
      NoRunNoBreak(s[n..]);
      assert s == s[..n] + s[n..] && s[..1] == [s[0]];
    }
  }

  lemma {:induction false} LongRunBreaks(run: string, since: nat)
    requires |run| + since > EVERY + 1 && since < EVERY
    ensures ZWSP in SoftBreaks(run, since)
    decreases |run|
  {
    if BreaksAfter(run, since) {
      assert Head(run, since)[UnitOf(run)] == ZWSP;
      assert ZWSP in Head(run, since);
    } else {
      LongRunBreaks(run[UnitOf(run)..], Since(run, since));
    }
  }

  lemma {:induction false} RunGetsBreak(s: string)
    requires LongRun(s)
    ensures ZWSP in BreakRuns(s)
    decreases |s|
  {
    var n := WordRun(s);
    if n >= 40 {
      LongRunBreaks(s[..n], 0);
    } else if n == 0 {
      RunGetsBreak(s[1..]);
    } else {
      ShortAfter(s, n);
      RunGetsBreak(s[n..]);
    }
  }

  lemma {:induction false} StripKeeps(s: string, c: char)
    requires c in s && c != '\\' && c != NBSP
    ensures c in UnescapeContent(s)
    decreases |s|
  {
    assert s == [s[0]] + s[1..];
    if s[0] == '\\' && |s| > 1 && Special(s[1]) {
      assert s == s[..2] + s[2..];
      assert PlainSpaces([s[1]] + StripEscapes(s[2..]))[1..] == UnescapeContent(s[2..]) by {
        assert ([s[1]] + StripEscapes(s[2..]))[1..] == StripEscapes(s[2..]);
      }
      if s[1] != c {
        StripKeeps(s[2..], c);
      }
    } else {
      assert PlainSpaces([s[0]] + StripEscapes(s[1..]))[1..] == UnescapeContent(s[1..]) by {
        assert ([s[0]] + StripEscapes(s[1..]))[1..] == StripEscapes(s[1..]);
      }
      if s[0] != c {
        StripKeeps(s[1..], c);
      }
    }
  }

  /**
   * `unescapeContent` alone undoes `escContent` exactly when no run of the escaped text was long
   * enough to be broken: it leaves the breaks in.
   */
  lemma UnescapeUndoesIff(s: string)
    requires NBSP !in s && ZWSP !in s
    ensures UnescapeContent(EscContent(s)) == s <==> !LongRun(Spaced(s))
  {
    hide Spaced, UnescapeContent, BreakRuns, LongRun;
    if LongRun(Spaced(s)) {
      RunGetsBreak(Spaced(s));
      StripKeeps(BreakRuns(Spaced(s)), ZWSP);
    } else {
      NoRunNoBreak(Spaced(s));
      SpacedIsUndone(s);
    }
  }

  // ----- where breaks fall -----

  /** Backslashes stand directly before the special character they escape, and no other is left bare. */
  predicate Paired(s: string)
    decreases |s|
  {
    if s == "" then true
    else if s[0] == '\\' then |s| > 1 && Special(s[1]) && Paired(s[2..])
    else !Special(s[0]) && Paired(s[1..])
  }

  /** Twenty or twenty-one characters before each break, `since` of them already seen, and something after it. */
  predicate ChunksFit(s: string, since: nat) {
    if s == "" then since <= 21
    else if s[0] == ZWSP then 20 <= since <= 21 && |s| > 1 && ChunksFit(s[1..], 0)
    else ChunksFit(s[1..], since + 1)
  }

  lemma {:induction false} PairedAppend(a: string, b: string)
    requires Paired(a)
    ensures Paired(a + b) <==> Paired(b)
    decreases |a|
  {
    if a == "" {
      assert a + b == b;
    } else if a[0] == '\\' {
      assert (a + b)[2..] == a[2..] + b && (a + b)[1] == a[1];
      PairedAppend(a[2..], b);
    } else {
      assert (a + b)[1..] == a[1..] + b;
      PairedAppend(a[1..], b);
    }
  }

  lemma FirstUnit(run: string)
    requires run != "" && Paired(run)
    ensures var n := UnitOf(run);
            Paired(run[..n]) && Paired(run[n..]) && Paired(run[..n] + [ZWSP])
  {
    var n := UnitOf(run);
    assert run[..n][n..] == "" && [ZWSP][1..] == "";
    if run[0] == '\\' {
      assert run[..n][2..] == "" && run[..n][1] == run[1];
    } else {
      assert run[..n][1..] == "";
    }
    PairedAppend(run[..n], [ZWSP]);
  }

  /** A break never parts a backslash from the character it escapes. */
  lemma {:induction false} BreaksKeepPairs(run: string, since: nat)
    requires Paired(run)
    ensures Paired(SoftBreaks(run, since))
    decreases |run|
  {
    if run != "" {
      FirstUnit(run);
      BreaksKeepPairs(run[UnitOf(run)..], Since(run, since));
      PairedAppend(Head(run, since), SoftBreaks(run[UnitOf(run)..], Since(run, since)));
      hide Paired;
    }
  }

  lemma {:induction false} FitAppend(a: string, b: string, since: nat)
    requires ZWSP !in a
    ensures ChunksFit(a + b, since) <==> ChunksFit(b, since + |a|)
  {
    if a == "" {
      assert a + b == b;
    } else {
      assert (a + b)[1..] == a[1..] + b;
      FitAppend(a[1..], b, since + 1);
    }
  }

  /** Between breaks there are twenty or twenty-one characters. */
  lemma {:induction false} ChunksAreShort(run: string, since: nat)
    requires ZWSP !in run && since < EVERY
    ensures ChunksFit(SoftBreaks(run, since), since)
    decreases |run|
  {
    if run != "" {
      var n := UnitOf(run);
      var rest := SoftBreaks(run[n..], Since(run, since));
      if BreaksAfter(run, since) {
        ChunksAreShort(run[n..], 0);
        SoftCons(run[n..], 0);
        Assoc(run[..n], [ZWSP], rest);
        assert ([ZWSP] + rest)[1..] == rest;
        FitAppend(run[..n], [ZWSP] + rest, since);
      } else {
        if since + n < EVERY {
          ChunksAreShort(run[n..], since + n);
        } else {
          assert run[n..] == "";
        }
        FitAppend(run[..n], rest, since);
      }
    }
  }

  lemma {:induction false} EscapesArePaired(s: string)
    ensures Paired(EscapeSpecials(s))
  {
    if s != "" {
      EscapesArePaired(s[1..]);
      var e := EscapeSpecials(s);
      if Special(s[0]) {
        assert e[2..] == EscapeSpecials(s[1..]) && e[1] == s[0];
      } else {
        assert e[1..] == EscapeSpecials(s[1..]);
      }
    }
  }

  /** Two texts that differ only in spaces and non-breaking spaces are paired alike. */
  lemma {:induction false} PairedPlain(s: string)
    ensures Paired(PlainSpaces(s)) <==> Paired(s)
    decreases |s|
  {
    SpacesAreNotSpecial();
    hide Special;
    if s != "" {
      PlainHead(s);
      PlainHead(s[1..]);
      var p := PlainSpaces(s);
      if s[0] == '\\' && |s| > 1 {
        PairedPlain(s[2..]);
        assert p[1] == p[1..][0] && p[2..] == p[1..][1..] && s[1..][1..] == s[2..];
      } else {
        PairedPlain(s[1..]);
      }
    }
  }

  lemma SpacedIsPaired(s: string)
    ensures Paired(Spaced(s))
  {
    hide EscapeSpecials, LeadingSpaces, SpaceRuns, PlainSpaces, Paired;
    var e := EscapeSpecials(s);
    EscapesArePaired(s);
    LeadingIsPlain(e, true);
    RunsArePlain(LeadingSpaces(e, true));
    PairedPlain(e);
    PairedPlain(LeadingSpaces(e, true));
    PairedPlain(Spaced(s));
  }

  /** A run of characters without white space starts and ends between units. */
  lemma SpecialIsNoSpace(c: char)
    requires Special(c)
    ensures !IsSpace(c)
  {
  }

  lemma UnitIsPaired(unit: string)
    requires if |unit| == 2 then unit[0] == '\\' && Special(unit[1]) else |unit| == 1 && unit[0] != '\\' && !Special(unit[0])
    ensures Paired(unit)
  {
    hide Special;
    assert unit[|unit|..] == "";
  }

  lemma EscapeHead(s: string)
    requires s != "" && Paired(s) && s[0] == '\\'
    ensures |s| >= 2 && Paired(s[..2]) && Paired(s[2..]) && WordRun(s) == 2 + WordRun(s[2..])
  {
    SpecialIsNoSpace(s[1]);
    UnitIsPaired(s[..2]);
    hide Special, Paired, IsSpace;
    assert !IsSpace('\\') by {
      NoSpace();
    }
    assert s[1..][1..] == s[2..] && s[1..][0] == s[1];
    assert WordRun(s) == 1 + WordRun(s[1..]);
  }

  lemma NoSpace()
    ensures !IsSpace('\\')
  {
  }

  lemma PlainHeadRun(s: string)
    requires s != "" && Paired(s) && s[0] != '\\'
    ensures Paired(s[..1]) && Paired(s[1..]) && (WordRun(s) > 0 ==> WordRun(s) == 1 + WordRun(s[1..]))
  {
    UnitIsPaired(s[..1]);
    hide Special, IsSpace;
  }

  lemma {:induction false} RunsAreWhole(s: string)
    requires Paired(s)
    ensures Paired(s[..WordRun(s)]) && Paired(s[WordRun(s)..])
    decreases |s|
  {
    var n := WordRun(s);
    if s == "" || n == 0 {
      assert s[..n] == "" && s[n..] == s;
    } else {
      hide *;
      var h := if s[0] == '\\' then 2 else 1;
      if h == 2 {
        EscapeHead(s);
      } else {
        PlainHeadRun(s);
      }
      RunsAreWhole(s[h..]);
      assert s[..n] == s[..h] + s[h..][..n - h] && s[n..] == s[h..][n - h..];
      PairedAppend(s[..h], s[h..][..n - h]);
    }
  }

  lemma {:induction false} BreakRunsPaired(s: string)
    requires Paired(s)
    ensures Paired(BreakRuns(s))
    decreases |s|
  {
    if s != "" {
      var n := WordRun(s);
      if n == 0 {
        BreakRunsPaired(s[1..]);
        assert ([s[0]] + BreakRuns(s[1..]))[1..] == BreakRuns(s[1..]);
      } else {
        RunsAreWhole(s);
        BreakRunsPaired(s[n..]);
        BreaksKeepPairs(s[..n], 0);
        PairedAppend(s[..n], BreakRuns(s[n..]));
        PairedAppend(SoftBreaks(s[..n], 0), BreakRuns(s[n..]));
        hide Paired, WordRun;
      }
    }
  }

  /** In the escaped text every backslash still escapes the character it was put before. */
  lemma NoEscapeIsSplit(s: string)
    ensures Paired(EscContent(s))
  {
    hide Spaced, BreakRuns, Paired;
    SpacedIsPaired(s);
    BreakRunsPaired(Spaced(s));
  }

  // ----- the escaped text, character by character -----

  /** The characters that mean something in the markup. */
  predicate Markup(c: char) {
    || c == '\\' || c == '#' || c == '*' || c == '_' || c == '`' || c == '$' || c == '[' || c == ']' || c == '@'
    || c == '<' || c == '>' || c == '~' || c == '/' || c == '=' || c == '+' || c == '-'
  }

  /** Read from the left, a backslash is always followed by a markup character, and no markup character stands without one. */
  predicate Literal(s: string)
    decreases |s|
  {
    if s == "" then true
    else if s[0] == '\\' then |s| > 1 && Markup(s[1]) && Literal(s[2..])
    else !Markup(s[0]) && Literal(s[1..])
  }

  lemma SpecialIsMarkup(c: char)
    ensures Special(c) <==> Markup(c)
  {
  }

  lemma {:induction false} PairedIsLiteral(s: string)
    ensures Paired(s) <==> Literal(s)
    decreases |s|
  {
    hide Special, Markup;
    if s != "" {
      SpecialIsMarkup(s[0]);
      PairedIsLiteral(s[1..]);
      if |s| > 1 {
        SpecialIsMarkup(s[1]);
        PairedIsLiteral(s[2..]);
      }
    }
  }

  /** Whatever the text, no character of it is left to start or alter markup. */
  lemma MarkupIsEscaped(s: string)
    ensures Literal(EscContent(s))
  {
    NoEscapeIsSplit(s);
    PairedIsLiteral(EscContent(s));
    hide *;
  }

  // ----- which spaces become non-breaking -----

  /** Only spaces lie between `i` and the start of its line. */
  predicate LeadIn(s: string, atStart: bool, i: nat)
    requires i <= |s|
  {
    if i == 0 then atStart else if s[i - 1] == ' ' then LeadIn(s, atStart, i - 1) else EndsLine(s[i - 1])
  }

  lemma {:induction false} LeadInTail(s: string, atStart: bool, i: nat)
    requires 0 < i <= |s|
    ensures LeadIn(s, atStart, i) <==> LeadIn(s[1..], if s[0] == ' ' then atStart else EndsLine(s[0]), i - 1)
  {
    if i > 1 {
      LeadInTail(s, atStart, i - 1);
    }
  }

  lemma {:induction false} LeadingAt(s: string, atStart: bool, i: nat)
    requires i < |s|
    ensures |LeadingSpaces(s, atStart)| == |s|
    ensures LeadingSpaces(s, atStart)[i] == if s[i] == ' ' && LeadIn(s, atStart, i) then NBSP else s[i]
  {
    var next := if s[0] == ' ' then atStart else EndsLine(s[0]);
    var rest := LeadingSpaces(s[1..], next);
    assert LeadingSpaces(s, atStart) == [if s[0] == ' ' && atStart then NBSP else s[0]] + rest;
    if i > 0 {
      LeadingAt(s[1..], next, i - 1);
      LeadInTail(s, atStart, i);
    } else if |s| > 1 {
      LeadingAt(s[1..], next, 0);
    }
  }

  /** Another space adjoins the one at `i`. */
  predicate Adjoined(s: string, i: nat)
    requires i < |s|
  {
    (i > 0 && s[i - 1] == ' ') || (i + 1 < |s| && s[i + 1] == ' ')
  }

  lemma {:induction false} RunOfSpaces(s: string)
    ensures forall k :: 0 <= k < SpaceRun(s) ==> s[k] == ' '
    ensures SpaceRun(s) < |s| ==> s[SpaceRun(s)] != ' '
  {
    if s != "" && s[0] == ' ' {
      RunOfSpaces(s[1..]);
      assert forall k :: 0 < k < SpaceRun(s) ==> s[k] == s[1..][k - 1];
    }
  }

  lemma {:induction false} RunsAt(s: string, i: nat)
    requires i < |s|
    ensures |SpaceRuns(s)| == |s|
    ensures SpaceRuns(s)[i] == if s[i] == ' ' && Adjoined(s, i) then NBSP else s[i]
    decreases |s|
  {
    var n := SpaceRun(s);
    RunOfSpaces(s);
    hide SpaceRun;
    var h := if n >= 2 then n else 1;
    if i >= h {
      RunsAt(s[h..], i - h);
    } else if |s| > h {
      RunsAt(s[h..], 0);
    } else {
      assert s[h..] == "";
    }
  }

  /** A space becomes non-breaking exactly at the start of a line or beside another space; nothing else changes. */
  lemma SpacedAt(s: string, i: nat)
    requires i < |EscapeSpecials(s)|
    ensures var e := EscapeSpecials(s);
            && |Spaced(s)| == |e|
            && Spaced(s)[i] == if e[i] == ' ' && (i == 0 || EndsLine(e[i - 1]) || Adjoined(e, i)) then NBSP else e[i]
  {
    var e := EscapeSpecials(s);
    var l := LeadingSpaces(e, true);
    hide EscapeSpecials, LeadingSpaces, SpaceRuns;
    assert !EndsLine(' ') && NBSP != ' ';
    hide EndsLine;
    LeadingAt(e, true, i);
    if i > 0 {
      LeadingAt(e, true, i - 1);
    }
    if i + 1 < |e| {
      LeadingAt(e, true, i + 1);
    }
    RunsAt(l, i);
  }

  // ----- which runs are broken -----

  /** A short run is whole; a long one is broken into pieces of twenty or twenty-one characters. */
  predicate RunFits(run: string) {
    if ZWSP in run then ChunksFit(run, 0) else |run| < 40
  }

  /** All runs without white space fit. */
  predicate RunsFit(s: string)
    decreases |s|
  {
    s == "" || if WordRun(s) == 0 then RunsFit(s[1..]) else RunFits(s[..WordRun(s)]) && RunsFit(s[WordRun(s)..])
  }

  lemma {:induction false} WordRunIs(s: string)
    ensures forall k :: 0 <= k < WordRun(s) ==> !IsSpace(s[k])
    ensures WordRun(s) < |s| ==> IsSpace(s[WordRun(s)])
  {
    hide IsSpace;
    if s != "" && !IsSpace(s[0]) {
      WordRunIs(s[1..]);
      assert forall k :: 0 < k < WordRun(s) ==> s[k] == s[1..][k - 1];
    }
  }

  lemma {:induction false} WordRunOfConcat(a: string, b: string)
    requires forall k :: 0 <= k < |a| ==> !IsSpace(a[k])
    requires b == "" || IsSpace(b[0])
    ensures WordRun(a + b) == |a|
  {
    hide IsSpace;
    if a == "" {
      assert a + b == b;
    } else {
      assert (a + b)[1..] == a[1..] + b && (a + b)[0] == a[0];
      WordRunOfConcat(a[1..], b);
    }
  }

  lemma {:induction false} BreaksAreNoSpace(run: string, since: nat)
    requires forall k :: 0 <= k < |run| ==> !IsSpace(run[k])
    ensures forall k :: 0 <= k < |SoftBreaks(run, since)| ==> !IsSpace(SoftBreaks(run, since)[k])
    decreases |run|
  {
    assert !IsSpace(ZWSP);
    hide IsSpace;
    if run != "" {
      BreaksAreNoSpace(run[UnitOf(run)..], Since(run, since));
    }
  }

  lemma RunOpensRest(s: string)
    requires s != ""
    ensures BreakRuns(s) != ""
    ensures IsSpace(s[0]) ==> IsSpace(BreakRuns(s)[0]) && BreakRuns(s) == [s[0]] + BreakRuns(s[1..])
  {
    if !IsSpace(s[0]) && WordRun(s) >= 40 {
      SoftCons(s[..WordRun(s)], 0);
    }
    hide IsSpace, SoftBreaks;
  }

  lemma RunsFitStep(a: string, b: string)
    requires a != "" && (forall k :: 0 <= k < |a| ==> !IsSpace(a[k])) && (b == "" || IsSpace(b[0]))
    requires RunFits(a) && RunsFit(b)
    ensures RunsFit(a + b)
  {
    WordRunOfConcat(a, b);
    assert (a + b)[..|a|] == a && (a + b)[|a|..] == b;
    hide IsSpace, WordRun, RunFits;
  }

  lemma BrokenFits(run: string)
    requires ZWSP !in run && run != ""
    ensures RunFits(if |run| >= 40 then SoftBreaks(run, 0) else run)
  {
    if |run| >= 40 {
      LongRunBreaks(run, 0);
      ChunksAreShort(run, 0);
    }
  }

  lemma {:induction false} BreakRunsFit(s: string)
    requires ZWSP !in s
    ensures RunsFit(BreakRuns(s))
    decreases |s|
  {
    if s != "" {
      var n := WordRun(s);
      WordRunIs(s);
      if n == 0 {
        Parted(s, 1);
        BreakRunsFit(s[1..]);
        RunOpensRest(s);
        assert ([s[0]] + BreakRuns(s[1..]))[1..] == BreakRuns(s[1..]);
        hide IsSpace, ChunksFit, BreakRuns;
      } else {
        Parted(s, n);
        var broken := if n >= 40 then SoftBreaks(s[..n], 0) else s[..n];
        BreakRunsFit(s[n..]);
        BrokenFits(s[..n]);
        BreaksAreNoSpace(s[..n], 0);
        if s[n..] != "" {
          RunOpensRest(s[n..]);
        }
        SoftCons(s[..n], 0);
        assert BreakRuns(s) == broken + BreakRuns(s[n..]);
        hide IsSpace, WordRun, SoftBreaks, RunFits, RunsFit;
        assert broken != "";
        RunsFitStep(broken, BreakRuns(s[n..]));
      }
    }
  }

  /** Every run of the escaped text fits. */
  lemma EscapedRunsFit(s: string)
    requires ZWSP !in s
    ensures RunsFit(EscContent(s))
  {
    SpacedAddsNone(s, ZWSP);
    BreakRunsFit(Spaced(s));
    hide *;
  }

  /** White space, and the ends of lines, by their numbers. */
  lemma SpacesAre(c: char)
    ensures var n := c as int;
            IsSpace(c) <==> 9 <= n <= 13 || n in {32, 160, 5760, 8232, 8233, 8239, 8287, 12288, 65279} || 8192 <= n <= 8202
    ensures EndsLine(c) <==> c as int in {10, 13, 8232, 8233}
  {
  }
}
