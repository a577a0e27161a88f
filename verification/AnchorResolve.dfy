/**
 * Anchor search: every occurrence of a text in the text blocks of a document, with the
 * block path and the token positions of each.
 */
module AnchorResolve {
  import opened Prelude
  import opened SeqFacts
  import opened DocTree
  import opened DocPaths
  import opened DocBodyEdit

  // The searched string of a block joins the characters of its own text children; the table
  // of their positions tells a real occurrence from one that only appears across an atom.

  datatype Match = Match(blockPath: Path, from: nat, to: nat)

  predicate IsTextblock(n: Node) {
    n.Branch? && n.kind.textblock
  }

  // ----- one block -----

  /** The characters of the direct text children. */
  function DirectText(ns: seq<Node>): string {
    if ns == [] then ""
    else (if ns[0].Text? then ns[0].chars else "") + DirectText(ns[1..])
  }

  /** The position of each of those characters. */
  function DirectPositions(ns: seq<Node>, base: nat): (ps: seq<nat>)
    ensures |ps| == |DirectText(ns)|
  {
    if ns == [] then []
    else
      (if ns[0].Text? then Run(base, |ns[0].chars|) else []) + DirectPositions(ns[1..], base + NodeSize(ns[0]))
  }

  function Run(from: nat, n: nat): (ps: seq<nat>)
    ensures |ps| == n && forall i :: 0 <= i < n ==> ps[i] == from + i
  {
    seq(n, i requires 0 <= i => from + i)
  }

  predicate OccursAt(text: string, needle: string, i: nat) {
    i + |needle| <= |text| && text[i..i + |needle|] == needle
  }

  /** The library's `indexOf`: the first occurrence at or after `start`. */
  function IndexOf(text: string, needle: string, start: nat): (r: Option<nat>)
    ensures r.Some? ==> start <= r.value && OccursAt(text, needle, r.value)
    ensures r.Some? ==> forall i :: start <= i < r.value ==> !OccursAt(text, needle, i)
    ensures r.None? ==> forall i :: start <= i ==> !OccursAt(text, needle, i)
    decreases |text| - start
  {
    if start + |needle| > |text| then None
    else if OccursAt(text, needle, start) then Some(start)
    else IndexOf(text, needle, start + 1)
  }

  predicate Contiguous(ps: seq<nat>, i: nat, n: nat)
    requires i + n <= |ps|
  {
    forall j :: i <= j < i + n ==> ps[j] == ps[i] + (j - i)
  }

  /** The greedy scan: skip past a real occurrence, but only one character past a spurious hit. */
  function Hits(text: string, ps: seq<nat>, needle: string, start: nat, path: Path): seq<Match>
    requires |ps| == |text| && needle != ""
    decreases |text| - start
  {
    match IndexOf(text, needle, start)
    case None => []
    case Some(i) =>
      if Contiguous(ps, i, |needle|) then
        [Match(path, ps[i], ps[i] + |needle|)] + Hits(text, ps, needle, i + |needle|, path)
      else
        Hits(text, ps, needle, i + 1, path)
  }

  /** A text block with the position at which its content starts. */
  datatype Block = Block(path: Path, base: nat, kids: seq<Node>)

  function MatchesIn(b: Block, needle: string): seq<Match>
    requires needle != ""
  {
    Hits(DirectText(b.kids), DirectPositions(b.kids, b.base), needle, 0, b.path)
  }

  /** The searched string of a block and the position table, built child by child. */
  method CollectText(inline: seq<Node>, contentStart: nat) returns (text: string, posOf: seq<nat>)
    ensures text == DirectText(inline) && posOf == DirectPositions(inline, contentStart)
  {
    hide *;
    text, posOf := "", [];
    var p: nat, n := contentStart, 0;
    assert inline[0..] == inline;
    AppendNil(DirectText(inline));
    AppendNil(DirectPositions(inline, contentStart));
    while n < |inline|
      invariant 0 <= n <= |inline| && |text| == |posOf|
      invariant text + DirectText(inline[n..]) == DirectText(inline)
      invariant posOf + DirectPositions(inline[n..], p) == DirectPositions(inline, contentStart)
    {
      var child := inline[n];
      CollectStep(inline, n, text, posOf, p);
      if child.Text? {
        text, posOf := AppendChars(text, posOf, child.chars, p);
      }
      p := p + NodeSize(child);
      n := n + 1;
    }
    assert inline[n..] == [];
    NothingDirect(p);
    AppendNil(text);
    AppendNil(posOf);
  }

  lemma NothingDirect(base: nat)
    ensures DirectText([]) == "" && DirectPositions([], base) == []
  {
  }

  lemma CollectStep(inline: seq<Node>, n: nat, text: string, posOf: seq<nat>, p: nat)
    requires n < |inline|
    ensures var child, later := inline[n], inline[n + 1..];
            var chars, own := if child.Text? then child.chars else "", if child.Text? then Run(p, |child.chars|) else [];
            && text + DirectText(inline[n..]) == text + chars + DirectText(later)
            && posOf + DirectPositions(inline[n..], p) == posOf + own + DirectPositions(later, p + NodeSize(child))
            && text + "" == text && posOf + [] == posOf
  {
    hide *;
    var child, later := inline[n], inline[n + 1..];
    assert inline[n..][0] == child && inline[n..][1..] == later;
    TextUnfold(inline[n..]);
    PositionsUnfold(inline[n..], p);
    Assoc(text, if child.Text? then child.chars else "", DirectText(later));
    Assoc(posOf, if child.Text? then Run(p, |child.chars|) else [], DirectPositions(later, p + NodeSize(child)));
  }

  method AppendChars(text: string, posOf: seq<nat>, t: string, p: nat) returns (text': string, posOf': seq<nat>)
    ensures text' == text + t && posOf' == posOf + Run(p, |t|)
  {
    text', posOf' := text, posOf;
    var i: nat := 0;
    while i < |t|
      invariant i <= |t|
      invariant text' == text + t[..i] && posOf' == posOf + Run(p, i)
    {
      text', posOf' := text' + [t[i]], posOf' + [p + i];
      i := i + 1;
    }
    assert t[..i] == t;
  }

  lemma HitsStep(text: string, ps: seq<nat>, needle: string, start: nat, path: Path, i: nat)
    requires |ps| == |text| && needle != "" && IndexOf(text, needle, start) == Some(i)
    ensures i < |ps|
    ensures i + |needle| <= |text| && OccursAt(text, needle, i)
    ensures Hits(text, ps, needle, start, path) ==
            if Contiguous(ps, i, |needle|) then [Match(path, ps[i], ps[i] + |needle|)] + Hits(text, ps, needle, i + |needle|, path)
            else Hits(text, ps, needle, i + 1, path)
  {
    hide IndexOf, Contiguous;
  }

  lemma HitsEnd(text: string, ps: seq<nat>, needle: string, start: nat, path: Path)
    requires |ps| == |text| && needle != "" && IndexOf(text, needle, start) == None
    ensures Hits(text, ps, needle, start, path) == []
  {
  }

  /** The consecutive-position test of one raw hit. */
  method IsContiguous(posOf: seq<nat>, at: nat, n: nat) returns (contiguous: bool)
    requires 0 < n && at + n <= |posOf|
    ensures contiguous <==> Contiguous(posOf, at, n)
  {
    var from := posOf[at];
    var k := 1;
    while k < n
      invariant 1 <= k <= n
      invariant forall j :: at <= j < at + k ==> posOf[j] == from + (j - at)
    {
      if posOf[at + k] != from + k {
        assert posOf[at + k] != posOf[at] + (at + k - at);
        return false;
      }
      k := k + 1;
    }
    return true;
  }

  method CollectInBlock(block: Node, path: Path, contentStart: nat, needle: string) returns (matches: seq<Match>)
    requires needle != ""
    ensures matches == MatchesIn(Block(path, contentStart, Kids(block)), needle)
  {
    hide Hits, DirectText, DirectPositions, Contiguous, IndexOf, OccursAt;
    var text, posOf := CollectText(Kids(block), contentStart);
    matches := [];
    var idx := IndexOf(text, needle, 0);
    ghost var start: nat := 0;
    AppendNil(Hits(text, posOf, needle, 0, path));
    while idx.Some?
      invariant idx == IndexOf(text, needle, start)
      invariant matches + Hits(text, posOf, needle, start, path) == Hits(text, posOf, needle, 0, path)
      decreases |text| - start
    {
      HitsStep(text, posOf, needle, start, path, idx.value);
      HitFits(text, needle, start, idx.value);
      var from := posOf[idx.value];
      var contiguous := IsContiguous(posOf, idx.value, |needle|);
      if contiguous {
        start := idx.value + |needle|;
        Assoc(matches, [Match(path, from, from + |needle|)], Hits(text, posOf, needle, start, path));
        matches := matches + [Match(path, from, from + |needle|)];
        idx := IndexOf(text, needle, idx.value + |needle|);
      } else {
        start := idx.value + 1;
        idx := IndexOf(text, needle, idx.value + 1);
      }
    }
    HitsEnd(text, posOf, needle, start, path);
    AppendNil(matches);
  }

  lemma HitFits(text: string, needle: string, start: nat, i: nat)
    requires IndexOf(text, needle, start) == Some(i)
    ensures start <= i && i + |needle| <= |text|
  {
  }

  // ----- what the scan finds -----

  ghost predicate IsHit(text: string, ps: seq<nat>, needle: string, path: Path, m: Match, i: nat)
    requires |ps| == |text|
  {
    OccursAt(text, needle, i) && i < |ps| && Contiguous(ps, i, |needle|) && m == Match(path, ps[i], ps[i] + |needle|)
  }

  predicate Increasing(ps: seq<nat>) {
    forall i, j :: 0 <= i < j < |ps| ==> ps[i] < ps[j]
  }

  /** Every listed match is a real occurrence, and the matches are in order and disjoint. */
  lemma {:induction false} HitsSound(text: string, ps: seq<nat>, needle: string, start: nat, path: Path)
    requires |ps| == |text| && needle != "" && Increasing(ps)
    ensures forall m :: m in Hits(text, ps, needle, start, path) ==>
              exists i: nat :: start <= i && IsHit(text, ps, needle, path, m, i)
    ensures InOrder(Hits(text, ps, needle, start, path))
    decreases |text| - start
  {
    hide Hits, IndexOf, OccursAt;
    var idx := IndexOf(text, needle, start);
    if idx.None? {
      HitsEnd(text, ps, needle, start, path);
    } else {
      var i := idx.value;
      HitsStep(text, ps, needle, start, path, i);
      if Contiguous(ps, i, |needle|) {
        HitsSound(text, ps, needle, i + |needle|, path);
        var m, rest := Match(path, ps[i], ps[i] + |needle|), Hits(text, ps, needle, i + |needle|, path);
        assert IsHit(text, ps, needle, path, m, i);
        forall k | 0 <= k < |rest|
          ensures m.to <= rest[k].from
        {
          assert rest[k] in rest;
          var j: nat :| i + |needle| <= j && IsHit(text, ps, needle, path, rest[k], j);
          var last := i + |needle| - 1;
          assert ps[last] == ps[i] + (last - i);
          assert ps[last] < ps[j];
        }
      } else {
        HitsSound(text, ps, needle, i + 1, path);
      }
    }
  }

  predicate InOrder(ms: seq<Match>) {
    forall i, j :: 0 <= i < j < |ms| ==> ms[i].to <= ms[j].from
  }

  /** Every contiguous occurrence is listed or starts inside a listed match. */
  lemma {:induction false} HitsComplete(text: string, ps: seq<nat>, needle: string, start: nat, path: Path, i: nat)
    requires |ps| == |text| && needle != "" && Increasing(ps)
    requires start <= i && OccursAt(text, needle, i) && Contiguous(ps, i, |needle|)
    ensures exists m :: m in Hits(text, ps, needle, start, path) && m.blockPath == path && m.from <= ps[i] < m.to
    decreases |text| - start
  {
    hide Hits, IndexOf, OccursAt;
    var idx := IndexOf(text, needle, start);
    assert idx.Some?;
    var j := idx.value;
    HitsStep(text, ps, needle, start, path, j);
    assert j <= i;
    if Contiguous(ps, j, |needle|) {
      var m := Match(path, ps[j], ps[j] + |needle|);
      assert m in [m] + Hits(text, ps, needle, j + |needle|, path);
      if i < j + |needle| {
        assert ps[i] == ps[j] + (i - j);
      } else {
        HitsComplete(text, ps, needle, j + |needle|, path, i);
      }
    } else {
      HitsComplete(text, ps, needle, j + 1, path, i);
    }
  }

  // ----- text of a block and its tokens -----

  predicate IsChar(t: Token, c: char) {
    t.Ch? && t.c == c
  }

  /** The tokens from `at` on spell the needle: characters only, no atom and no boundary. */
  predicate Spells(ts: seq<Token>, at: nat, needle: string) {
    at + |needle| <= |ts| && forall j :: at <= j < at + |needle| ==> IsChar(ts[j], needle[j - at])
  }

  /** Position `x` of a block whose content starts at `base` holds the character `c`. */
  predicate CharAt(ns: seq<Node>, base: nat, x: int, c: char) {
    base <= x < base + |FlattenAll(ns)| && IsChar(FlattenAll(ns)[x - base], c)
  }

  lemma CharShift(ns: seq<Node>, base: nat, x: int, c: char)
    requires ns != [] && base + NodeSize(ns[0]) <= x
    ensures CharAt(ns, base, x, c) <==> CharAt(ns[1..], base + NodeSize(ns[0]), x, c)
  {
  }

  lemma CharHead(ns: seq<Node>, base: nat, i: nat)
    requires ns != [] && ns[0].Text? && i < |ns[0].chars|
    ensures CharAt(ns, base, base + i, ns[0].chars[i])
  {
  }

  /** How the table of a block splits into its first child and the rest. */
  lemma DirectSplit(ns: seq<Node>, base: nat, i: nat) returns (n: nat)
    requires ns != [] && i < |DirectText(ns)|
    ensures n == if ns[0].Text? then |ns[0].chars| else 0
    ensures n <= NodeSize(ns[0]) && |DirectText(ns)| == n + |DirectText(ns[1..])|
    ensures i < n ==> DirectText(ns)[i] == ns[0].chars[i] && DirectPositions(ns, base)[i] == base + i
    ensures i >= n ==> DirectText(ns)[i] == DirectText(ns[1..])[i - n]
    ensures i >= n ==> DirectPositions(ns, base)[i] == DirectPositions(ns[1..], base + NodeSize(ns[0]))[i - n]
  {
    hide *;
    n := if ns[0].Text? then |ns[0].chars| else 0;
    var chars := if ns[0].Text? then ns[0].chars else "";
    var run := if ns[0].Text? then Run(base, |ns[0].chars|) else [];
    TextUnfold(ns);
    PositionsUnfold(ns, base);
  }

  lemma TextUnfold(ns: seq<Node>)
    requires ns != []
    ensures DirectText(ns) == (if ns[0].Text? then ns[0].chars else "") + DirectText(ns[1..])
    ensures ns[0].Text? ==> NodeSize(ns[0]) == |ns[0].chars|
  {
    hide FlattenAll, Flatten, ContentSize;
  }

  lemma PositionsUnfold(ns: seq<Node>, base: nat)
    requires ns != []
    ensures DirectPositions(ns, base)
         == (if ns[0].Text? then Run(base, |ns[0].chars|) else []) + DirectPositions(ns[1..], base + NodeSize(ns[0]))
  {
    hide FlattenAll, Flatten, ContentSize, NodeSize, Run;
  }

  lemma NonEmptyText(ns: seq<Node>)
    ensures ns == [] ==> DirectText(ns) == ""
  {
  }

  /** Entry `i` of the table is the position of character `i`. */
  lemma {:induction false} DirectToken(ns: seq<Node>, base: nat, i: nat)
    requires i < |DirectText(ns)|
    ensures CharAt(ns, base, DirectPositions(ns, base)[i], DirectText(ns)[i])
  {
    hide *;
    NonEmptyText(ns);
    var n := DirectSplit(ns, base, i);
    if i < n {
      CharHead(ns, base, i);
    } else {
      var rest := base + NodeSize(ns[0]);
      DirectToken(ns[1..], rest, i - n);
      var x, c := DirectPositions(ns[1..], rest)[i - n], DirectText(ns[1..])[i - n];
      CharBounds(ns[1..], rest, x, c);
      CharShift(ns, base, x, c);
    }
  }

  lemma {:induction false} DirectIncreases(ns: seq<Node>, base: nat, i: nat, j: nat)
    requires i < j < |DirectText(ns)|
    ensures DirectPositions(ns, base)[i] < DirectPositions(ns, base)[j]
  {
    hide *;
    NonEmptyText(ns);
    var n := DirectSplit(ns, base, i);
    n := DirectSplit(ns, base, j);
    if n <= i {
      DirectIncreases(ns[1..], base + NodeSize(ns[0]), i - n, j - n);
    } else if n <= j {
      var rest := base + NodeSize(ns[0]);
      DirectToken(ns[1..], rest, j - n);
      CharBounds(ns[1..], rest, DirectPositions(ns[1..], rest)[j - n], DirectText(ns[1..])[j - n]);
    }
  }

  /** The table is increasing and its entries are the positions of the characters. */
  lemma DirectTokens(ns: seq<Node>, base: nat)
    ensures forall i :: 0 <= i < |DirectText(ns)| ==> CharAt(ns, base, DirectPositions(ns, base)[i], DirectText(ns)[i])
    ensures Increasing(DirectPositions(ns, base))
  {
    hide DirectText, DirectPositions, CharAt;
    forall i | 0 <= i < |DirectText(ns)|
      ensures CharAt(ns, base, DirectPositions(ns, base)[i], DirectText(ns)[i])
    {
      DirectToken(ns, base, i);
    }
    forall i, j | 0 <= i < j < |DirectText(ns)|
      ensures DirectPositions(ns, base)[i] < DirectPositions(ns, base)[j]
    {
      DirectIncreases(ns, base, i, j);
    }
  }

  lemma CharBounds(ns: seq<Node>, base: nat, x: int, c: char)
    requires CharAt(ns, base, x, c)
    ensures base <= x < base + |FlattenAll(ns)|
  {
  }

  /** A position inside a text child of the block. */
  predicate IsDirect(ns: seq<Node>, base: nat, x: nat) {
    x in DirectPositions(ns, base)
  }

  lemma DirectIsTextChild(ns: seq<Node>, base: nat, x: nat)
    requires ns != []
    ensures IsDirect(ns, base, x) <==>
              || (ns[0].Text? && base <= x < base + NodeSize(ns[0]))
              || IsDirect(ns[1..], base + NodeSize(ns[0]), x)
  {
    hide DirectPositions, FlattenAll, Flatten, ContentSize, NodeSize;
    TextUnfold(ns);
    PositionsUnfold(ns, base);
    var head := if ns[0].Text? then Run(base, |ns[0].chars|) else [];
    if ns[0].Text? && base <= x < base + |ns[0].chars| {
      assert head[x - base] == x;
    }
  }

  lemma DirectBounds(ns: seq<Node>, base: nat, x: nat)
    requires IsDirect(ns, base, x)
    ensures base <= x < base + |FlattenAll(ns)|
  {
    DirectTokens(ns, base);
    var i :| 0 <= i < |DirectPositions(ns, base)| && DirectPositions(ns, base)[i] == x;
    CharBounds(ns, base, x, DirectText(ns)[i]);
  }

  /** After a character of a text child, the next character of the block is also in a text child. */
  lemma {:induction false} DirectNext(ns: seq<Node>, base: nat, x: nat, c: char)
    requires WellFormedAll(ns) && IsDirect(ns, base, x) && CharAt(ns, base, x + 1, c)
    ensures IsDirect(ns, base, x + 1)
  {
    hide *;
    NoDirect(base, x);
    var size := NodeSize(ns[0]);
    TailWellFormed(ns);
    DirectIsTextChild(ns, base, x);
    DirectIsTextChild(ns, base, x + 1);
    if ns[0].Text? && base <= x < base + size {
      if x + 1 == base + size {
        CharShift(ns, base, x + 1, c);
        CharSomewhere(ns[1..], base + size, x + 1, c);
        FirstTokenIsText(ns[1..], base + size, c);
        DirectIsTextChild(ns[1..], base + size, x + 1);
      }
    } else {
      DirectBounds(ns[1..], base + size, x);
      CharShift(ns, base, x + 1, c);
      DirectNext(ns[1..], base + size, x, c);
    }
  }

  lemma TailWellFormed(ns: seq<Node>)
    requires WellFormedAll(ns) && ns != []
    ensures WellFormedAll(ns[1..]) && (ns[1..] != [] ==> WellFormed(ns[1..][0]))
  {
  }

  lemma NoDirect(base: nat, x: nat)
    ensures !IsDirect([], base, x)
  {
  }

  lemma CharSomewhere(ns: seq<Node>, base: nat, x: int, c: char)
    requires CharAt(ns, base, x, c)
    ensures ns != []
  {
  }

  lemma FirstTokenIsText(ns: seq<Node>, base: nat, c: char)
    requires ns != [] && WellFormed(ns[0]) && CharAt(ns, base, base, c)
    ensures ns[0].Text? && NodeSize(ns[0]) > 0
  {
    SizePositive(ns[0]);
    assert FlattenAll(ns)[0] == Flatten(ns[0])[0];
  }

  /** The needle stands at position `x` of a block, token by token. */
  predicate SpelledAt(ns: seq<Node>, base: nat, x: nat, needle: string) {
    forall k :: 0 <= k < |needle| ==> CharAt(ns, base, x + k, needle[k])
  }

  /** Spelled tokens that start in a text child are a contiguous occurrence in the searched string. */
  lemma SpelledIsOccurrence(ns: seq<Node>, base: nat, needle: string, x: nat) returns (i: nat)
    requires WellFormedAll(ns) && needle != "" && IsDirect(ns, base, x) && SpelledAt(ns, base, x, needle)
    ensures OccursAt(DirectText(ns), needle, i) && DirectPositions(ns, base)[i] == x
    ensures Contiguous(DirectPositions(ns, base), i, |needle|)
  {
    hide DirectPositions, DirectText, FlattenAll, CharAt, WellFormedAll, Increasing;
    var ps, text := DirectPositions(ns, base), DirectText(ns);
    DirectTokens(ns, base);
    i :| 0 <= i < |ps| && ps[i] == x;
    var k: nat := 1;
    while k < |needle|
      invariant 1 <= k <= |needle| && i + k <= |ps|
      invariant forall j :: i <= j < i + k ==> ps[j] == x + (j - i)
    {
      assert ps[i + k - 1] == x + k - 1;
      assert CharAt(ns, base, x + k, needle[k]);
      DirectNext(ns, base, x + k - 1, needle[k]);
      NextEntry(ps, i + k - 1, x + k);
      k := k + 1;
    }
    forall j | 0 <= j < |needle|
      ensures text[i + j] == needle[j]
    {
      assert ps[i + j] == x + j;
      SameChar(ns, base, x + j, text[i + j], needle[j]);
    }
    assert text[i..i + |needle|] == needle;
  }

  lemma SameChar(ns: seq<Node>, base: nat, x: int, c: char, d: char)
    requires CharAt(ns, base, x, c) && CharAt(ns, base, x, d)
    ensures c == d
  {
  }

  lemma NextEntry(ps: seq<nat>, i: nat, y: nat)
    requires Increasing(ps) && i < |ps| && y == ps[i] + 1 && y in ps
    ensures i + 1 < |ps| && ps[i + 1] == y
  {
    var j :| 0 <= j < |ps| && ps[j] == y;
    assert i < j;
    var next := ps[i + 1];
    assert ps[i] < next <= y;
  }

  lemma OccurrenceIsSpelled(ns: seq<Node>, base: nat, needle: string, i: nat)
    requires OccursAt(DirectText(ns), needle, i) && i < |DirectText(ns)| && Contiguous(DirectPositions(ns, base), i, |needle|)
    ensures SpelledAt(ns, base, DirectPositions(ns, base)[i], needle)
  {
    hide FlattenAll, CharAt, DirectText, DirectPositions, Increasing;
    DirectTokens(ns, base);
    var text, ps := DirectText(ns), DirectPositions(ns, base);
    forall k | 0 <= k < |needle|
      ensures CharAt(ns, base, ps[i] + k, needle[k])
    {
      assert text[i + k] == text[i..i + |needle|][k];
      assert ps[i + k] == ps[i] + k;
      assert CharAt(ns, base, ps[i + k], text[i + k]);
    }
  }

  // ----- the walk over the tree -----

  function Blocks(n: Node, path: Path, base: nat): seq<Block>
    decreases n, 1
  {
    if IsTextblock(n) then [Block(path, base, n.children)]
    else if n.Branch? then BlocksFrom(n.children, path, 0, base)
    else []
  }

  /** The blocks under the children of a node, the first of which has index `i`. */
  function BlocksFrom(ns: seq<Node>, path: Path, i: nat, base: nat): seq<Block>
    decreases ns, 0
  {
    if ns == [] then []
    else Blocks(ns[0], path + [i], base + 1) + BlocksFrom(ns[1..], path, i + 1, base + NodeSize(ns[0]))
  }

  function MatchesInAll(bs: seq<Block>, needle: string): seq<Match>
    requires needle != ""
  {
    if bs == [] then [] else MatchesIn(bs[0], needle) + MatchesInAll(bs[1..], needle)
  }

  lemma {:induction false} MatchesAppend(a: seq<Block>, b: seq<Block>, needle: string)
    requires needle != ""
    ensures MatchesInAll(a + b, needle) == MatchesInAll(a, needle) + MatchesInAll(b, needle)
  {
    if a == [] {
      assert a + b == b;
    } else {
      hide MatchesIn;
      assert (a + b)[1..] == a[1..] + b && (a + b)[0] == a[0];
      MatchesAppend(a[1..], b, needle);
      Assoc(MatchesIn(a[0], needle), MatchesInAll(a[1..], needle), MatchesInAll(b, needle));
    }
  }

  lemma MatchesOne(b: Block, needle: string)
    requires needle != ""
    ensures MatchesInAll([b], needle) == MatchesIn(b, needle)
  {
    AppendNil(MatchesIn(b, needle));
  }

  method Walk(node: Node, path: Path, contentStart: nat, needle: string) returns (matches: seq<Match>)
    requires needle != ""
    ensures matches == MatchesInAll(Blocks(node, path, contentStart), needle)
    decreases node, 1
  {
    if IsTextblock(node) {
      matches := CollectInBlock(node, path, contentStart, needle);
      MatchesOne(Block(path, contentStart, node.children), needle);
      return;
    }
    if !node.Branch? {
      NoMatches(needle);
      return [];
    }
    matches := WalkChildren(node.children, path, contentStart, needle);
  }

  method WalkChildren(children: seq<Node>, path: Path, contentStart: nat, needle: string) returns (matches: seq<Match>)
    requires needle != ""
    ensures matches == MatchesInAll(BlocksFrom(children, path, 0, contentStart), needle)
    decreases children, 0
  {
    hide MatchesIn, MatchesInAll, Blocks, FlattenAll, Flatten, NodeSize, ContentSize, IsTextblock;
    matches := [];
    var childStart: nat, index: nat := contentStart, 0;
    assert children[0..] == children;
    AppendNil(MatchesInAll(BlocksFrom(children, path, 0, contentStart), needle));
    while index < |children|
      invariant index <= |children|
      invariant matches + MatchesInAll(BlocksFrom(children[index..], path, index, childStart), needle)
             == MatchesInAll(BlocksFrom(children, path, 0, contentStart), needle)
    {
      var child := children[index];
      assert children[index..][0] == child && children[index..][1..] == children[index + 1..];
      var found := Walk(child, path + [index], childStart + 1, needle);
      ghost var later := BlocksFrom(children[index + 1..], path, index + 1, childStart + NodeSize(child));
      MatchesAppend(Blocks(child, path + [index], childStart + 1), later, needle);
      Assoc(matches, found, MatchesInAll(later, needle));
      matches := matches + found;
      childStart := childStart + NodeSize(child);
      index := index + 1;
    }
    assert children[index..] == [];
    NoMatches(needle);
    AppendNil(matches);
  }

  lemma NoMatches(needle: string)
    requires needle != ""
    ensures MatchesInAll([], needle) == []
  {
  }

  /** All matches of a document, in document order. */
  function AllMatches(doc: Doc, needle: string): seq<Match> {
    if needle == "" then [] else MatchesInAll(Blocks(doc, [], 0), needle)
  }

  method FindAnchorMatches(doc: Doc, needle: string) returns (matches: seq<Match>)
    ensures matches == AllMatches(doc, needle)
  {
    if |needle| == 0 {
      return [];
    }
    matches := Walk(doc, [], 0, needle);
  }

  // ----- where the blocks are -----

  /** A text block that the walk reaches: no node above it is a text block. */
  predicate Reached(ns: seq<Node>, path: Path)
    decreases |path|
  {
    && ValidPath(ns, path)
    && if |path| == 1 then IsTextblock(ns[path[0]])
       else !IsTextblock(ns[path[0]]) && Reached(Kids(ns[path[0]]), path[1..])
  }

  lemma {:induction false} ReachedNode(ns: seq<Node>, path: Path)
    requires Reached(ns, path)
    ensures ValidPath(ns, path) && IsTextblock(NodeAt(ns, path))
    decreases |path|
  {
    if |path| > 1 {
      ReachedNode(Kids(ns[path[0]]), path[1..]);
    }
  }

  /** The block at a reached path. */
  function BlockAt(ns: seq<Node>, base: nat, prefix: Path, path: Path): Block
    requires Reached(ns, path)
  {
    Block(prefix + path, StartBelow(ns, base, path) + 1, Kids(NodeAt(ns, path)))
  }

  lemma BlocksFromTail(ns: seq<Node>, prefix: Path, i: nat, base: nat)
    requires i < |ns|
    ensures BlocksFrom(ns[i..], prefix, i, base + Offset(ns, i))
         == Blocks(ns[i], prefix + [i], base + Offset(ns, i) + 1) + BlocksFrom(ns[i + 1..], prefix, i + 1, base + Offset(ns, i + 1))
  {
    assert ns[i..][0] == ns[i] && ns[i..][1..] == ns[i + 1..];
  }

  /** Every listed block stands at a reached path, and its base is one past its open token. */
  lemma {:induction false} ListedIsReached(ns: seq<Node>, prefix: Path, i: nat, base: nat, b: Block) returns (path: Path)
    requires i <= |ns| && b in BlocksFrom(ns[i..], prefix, i, base + Offset(ns, i))
    ensures Reached(ns, path) && b == BlockAt(ns, base, prefix, path)
    decreases ns, |ns| - i
  {
    hide FlattenAll, NodeSize, ContentSize, Offset, BlocksFrom;
    NoBlocks(prefix, i, base + Offset(ns, i));
    assert ns[|ns|..] == [];
    BlocksFromTail(ns, prefix, i, base);
    var start := base + Offset(ns, i);
    if b in Blocks(ns[i], prefix + [i], start + 1) {
      if IsTextblock(ns[i]) {
        path := [i];
      } else {
        var kids := ns[i].children;
        NoOffset(kids);
        assert kids[0..] == kids;
        var below := ListedIsReached(kids, prefix + [i], 0, start + 1, b);
        path := [i] + below;
        ReachedBelow(ns, base, prefix, i, below);
      }
    } else {
      path := ListedIsReached(ns, prefix, i + 1, base, b);
    }
  }

  lemma ReachedBelow(ns: seq<Node>, base: nat, prefix: Path, i: nat, below: Path)
    requires i < |ns| && ns[i].Branch? && !IsTextblock(ns[i]) && Reached(ns[i].children, below)
    ensures Reached(ns, [i] + below)
    ensures BlockAt(ns, base, prefix, [i] + below) == BlockAt(ns[i].children, base + Offset(ns, i) + 1, prefix + [i], below)
  {
    hide NodeSize, Offset;
    var path := [i] + below;
    assert path[1..] == below && prefix + path == prefix + [i] + below;
  }

  lemma NoBlocks(prefix: Path, i: nat, base: nat)
    ensures BlocksFrom([], prefix, i, base) == []
  {
  }

  /** Every reached block is listed. */
  lemma {:induction false} ReachedIsListed(ns: seq<Node>, prefix: Path, i: nat, base: nat, path: Path)
    requires Reached(ns, path) && i <= path[0]
    ensures i <= |ns| && BlockAt(ns, base, prefix, path) in BlocksFrom(ns[i..], prefix, i, base + Offset(ns, i))
    decreases ns, |ns| - i
  {
    hide FlattenAll, NodeSize, ContentSize, Offset, BlocksFrom;
    BlocksFromTail(ns, prefix, i, base);
    if i < path[0] {
      ReachedIsListed(ns, prefix, i + 1, base, path);
    } else if |path| == 1 {
      assert path == [i];
    } else {
      var kids, start := ns[i].children, base + Offset(ns, i);
      NoOffset(kids);
      assert kids[0..] == kids;
      ReachedIsListed(kids, prefix + [i], 0, start + 1, path[1..]);
      assert path == [i] + path[1..];
      assert prefix + path == prefix + [i] + path[1..];
    }
  }

  /** Blocks come in document order and lie strictly inside the content they come from. */
  ghost predicate BlocksOrdered(bs: seq<Block>, lo: nat, hi: nat) {
    && (forall i :: 0 <= i < |bs| ==> lo <= bs[i].base && bs[i].base + |FlattenAll(bs[i].kids)| <= hi)
    && (forall i, j :: 0 <= i < j < |bs| ==> bs[i].base + |FlattenAll(bs[i].kids)| <= bs[j].base)
  }

  lemma OrderedConcat(a: seq<Block>, b: seq<Block>, lo: nat, mid: nat, hi: nat)
    requires lo <= mid <= hi && BlocksOrdered(a, lo, mid) && BlocksOrdered(b, mid, hi)
    ensures BlocksOrdered(a + b, lo, hi)
  {
    hide FlattenAll;
  }

  lemma {:induction false} NodeBlocksOrdered(n: Node, path: Path, base: nat)
    ensures BlocksOrdered(Blocks(n, path, base), base, base + |FlattenAll(Kids(n))|)
    decreases n, 1
  {
    if !IsTextblock(n) && n.Branch? {
      ForestBlocksOrdered(n.children, path, 0, base);
    }
  }

  lemma {:induction false} ForestBlocksOrdered(ns: seq<Node>, path: Path, i: nat, base: nat)
    ensures BlocksOrdered(BlocksFrom(ns, path, i, base), base, base + |FlattenAll(ns)|)
    decreases ns, 0
  {
    hide FlattenAll, Flatten, Blocks, ContentSize, NodeSize, BlocksOrdered;
    if ns == [] {
      NothingOrdered(base, base + |FlattenAll(ns)|);
    } else {
      var size, head := NodeSize(ns[0]), Blocks(ns[0], path + [i], base + 1);
      SizeOfCons(ns);
      if ns[0].Branch? {
        ContentFitsNode(ns[0]);
        NodeBlocksOrdered(ns[0], path + [i], base + 1);
        Widen(head, base + 1, base + 1 + |FlattenAll(ns[0].children)|, base, base + size);
      } else {
        NoBlockInLeaf(ns[0], path + [i], base + 1);
        NothingOrdered(base, base + size);
      }
      ForestBlocksOrdered(ns[1..], path, i + 1, base + size);
      OrderedConcat(head, BlocksFrom(ns[1..], path, i + 1, base + size), base, base + size, base + |FlattenAll(ns)|);
    }
  }

  lemma SizeOfCons(ns: seq<Node>)
    requires ns != []
    ensures |FlattenAll(ns)| == NodeSize(ns[0]) + |FlattenAll(ns[1..])|
  {
  }

  lemma NoBlockInLeaf(n: Node, path: Path, base: nat)
    requires !n.Branch?
    ensures Blocks(n, path, base) == []
  {
  }

  lemma NothingOrdered(lo: nat, hi: nat)
    requires lo <= hi
    ensures BlocksOrdered([], lo, hi)
  {
  }

  lemma Widen(bs: seq<Block>, lo: nat, hi: nat, lo': nat, hi': nat)
    requires BlocksOrdered(bs, lo, hi) && lo' <= lo && hi <= hi'
    ensures BlocksOrdered(bs, lo', hi')
  {
    hide FlattenAll;
  }

  /** A match lies inside the content of its block and spells the needle there. */
  lemma MatchInBlock(b: Block, needle: string, m: Match)
    requires needle != "" && m in MatchesIn(b, needle)
    ensures m.blockPath == b.path && m.to == m.from + |needle|
    ensures b.base <= m.from && m.to <= b.base + |FlattenAll(b.kids)|
    ensures SpelledAt(b.kids, b.base, m.from, needle)
  {
    hide FlattenAll, DirectText, DirectPositions, Hits, CharAt;
    var text, ps := DirectText(b.kids), DirectPositions(b.kids, b.base);
    DirectTokens(b.kids, b.base);
    HitsSound(text, ps, needle, 0, b.path);
    var i: nat :| IsHit(text, ps, needle, b.path, m, i);
    OccurrenceIsSpelled(b.kids, b.base, needle, i);
    var last := |needle| - 1;
    assert CharAt(b.kids, b.base, m.from + 0, needle[0]) && CharAt(b.kids, b.base, m.from + last, needle[last]);
    CharBounds(b.kids, b.base, m.from + 0, needle[0]);
    CharBounds(b.kids, b.base, m.from + last, needle[last]);
  }

  lemma {:induction false} MatchesInOrder(bs: seq<Block>, needle: string, lo: nat, hi: nat)
    requires needle != "" && BlocksOrdered(bs, lo, hi)
    ensures InOrder(MatchesInAll(bs, needle))
    ensures forall m :: m in MatchesInAll(bs, needle) ==> lo <= m.from && m.to <= hi
  {
    hide FlattenAll, MatchesIn;
    if bs != [] {
      var b := bs[0];
      var end := b.base + |FlattenAll(b.kids)|;
      assert BlocksOrdered(bs[1..], end, hi);
      MatchesInOrder(bs[1..], needle, end, hi);
      BlockInOrder(b, needle);
      forall m | m in MatchesIn(b, needle)
        ensures b.base <= m.from && m.to <= end
      {
        MatchInBlock(b, needle, m);
      }
    }
  }

  lemma BlockInOrder(b: Block, needle: string)
    requires needle != ""
    ensures InOrder(MatchesIn(b, needle))
  {
    hide Hits, DirectText, DirectPositions;
    DirectTokens(b.kids, b.base);
    HitsSound(DirectText(b.kids), DirectPositions(b.kids, b.base), needle, 0, b.path);
  }

  lemma {:induction false} MatchHasBlock(bs: seq<Block>, needle: string, m: Match) returns (b: Block)
    requires needle != "" && m in MatchesInAll(bs, needle)
    ensures b in bs && m in MatchesIn(b, needle)
  {
    hide MatchesIn;
    if m in MatchesIn(bs[0], needle) {
      b := bs[0];
    } else {
      b := MatchHasBlock(bs[1..], needle, m);
    }
  }

  lemma {:induction false} BlockHasMatch(bs: seq<Block>, needle: string, b: Block, m: Match)
    requires needle != "" && b in bs && m in MatchesIn(b, needle)
    ensures m in MatchesInAll(bs, needle)
  {
    hide MatchesIn;
    if bs[0] != b {
      BlockHasMatch(bs[1..], needle, b, m);
    }
  }

  // ----- the search over a whole document -----

  /** A text block of the document that the search looks into; `[]` is the document itself. */
  predicate SearchedBlock(doc: Doc, path: Path) {
    if IsTextblock(doc) then path == [] else Reached(doc.children, path)
  }

  /** The node is of a type with inline content. */
  predicate HoldsInline(n: Node) {
    n.Branch? && n.kind.textblock
  }

  lemma {:induction false} ReachedIff(ns: seq<Node>, path: Path)
    ensures Reached(ns, path) <==>
            && ValidPath(ns, path) && HoldsInline(NodeAt(ns, path))
            && forall k :: 0 < k < |path| ==> ValidPath(ns, path[..k]) && !HoldsInline(NodeAt(ns, path[..k]))
    decreases |path|
  {
    if ValidPath(ns, path) && |path| > 1 {
      var kids := Kids(ns[path[0]]);
      ReachedIff(kids, path[1..]);
      forall k | 1 < k < |path|
        ensures ValidPath(ns, path[..k]) <==> ValidPath(kids, path[1..][..k - 1])
        ensures ValidPath(ns, path[..k]) ==> NodeAt(ns, path[..k]) == NodeAt(kids, path[1..][..k - 1])
      {
        assert path[..k][1..] == path[1..][..k - 1];
      }
      if forall k :: 0 < k < |path| ==> ValidPath(ns, path[..k]) && !HoldsInline(NodeAt(ns, path[..k])) {
        assert path[..1] == [path[0]];
        forall k | 0 < k < |path| - 1
          ensures ValidPath(kids, path[1..][..k]) && !HoldsInline(NodeAt(kids, path[1..][..k]))
        {
          assert ValidPath(ns, path[..k + 1]);
        }
      }
      if Reached(ns, path) {
        forall k | 0 < k < |path|
          ensures ValidPath(ns, path[..k]) && !HoldsInline(NodeAt(ns, path[..k]))
        {
          if k > 1 {
            assert ValidPath(kids, path[1..][..k - 1]);
          }
        }
      }
    }
  }

  /** The search looks into the nodes of inline content that lie in no other such node. */
  lemma SearchedIff(doc: Doc, path: Path)
    ensures SearchedBlock(doc, path) <==>
            if HoldsInline(doc) then path == []
            else
              && ValidPath(doc.children, path) && HoldsInline(NodeAt(doc.children, path))
              && forall k :: 0 < k < |path| ==> ValidPath(doc.children, path[..k]) && !HoldsInline(NodeAt(doc.children, path[..k]))
  {
    ReachedIff(doc.children, path);
  }

  function BlockNode(doc: Doc, path: Path): Node
    requires SearchedBlock(doc, path)
  {
    if path == [] then doc
    else
      ReachedNode(doc.children, path);
      NodeAt(doc.children, path)
  }

  /** The content of a searched block occupies `ContentStart..ContentEnd`. */
  function ContentStart(doc: Doc, path: Path): nat
    requires SearchedBlock(doc, path)
  {
    if path == [] then 0
    else
      ReachedNode(doc.children, path);
      AnchorAt(doc, path).start + 1
  }

  function ContentEnd(doc: Doc, path: Path): nat
    requires SearchedBlock(doc, path)
  {
    if path == [] then |FlattenAll(doc.children)|
    else
      ReachedNode(doc.children, path);
      AnchorAt(doc, path).end - 1
  }

  /** The content tokens of a searched block, and the close token that ends them. */
  lemma BlockContent(doc: Doc, path: Path, kids: seq<Node>, start: nat, end: nat)
    requires SearchedBlock(doc, path) && kids == Kids(BlockNode(doc, path))
    requires start == ContentStart(doc, path) && end == ContentEnd(doc, path)
    ensures end == start + |FlattenAll(kids)| && end <= |FlattenAll(doc.children)|
    ensures FlattenAll(doc.children)[start..end] == FlattenAll(kids)
    ensures end < |FlattenAll(doc.children)| ==> FlattenAll(doc.children)[end].Close?
    ensures WellFormedAll(kids)
    ensures path != [] ==> start == StartBelow(doc.children, 0, path) + 1
  {
    var all := FlattenAll(doc.children);
    if path == [] {
      assert all[0..|all|] == all;
    } else {
      ReachedNode(doc.children, path);
      NodeIsWellFormed(doc.children, path);
      StartIsLeftSide(doc.children, 0, path);
      AnchorTokens(doc, path);
      BranchContent(all, start - 1, NodeAt(doc.children, path), end + 1);
    }
  }

  lemma BranchContent(all: seq<Token>, start: nat, n: Node, end: nat)
    requires n.Branch? && start + NodeSize(n) == end <= |all| && all[start..end] == Flatten(n)
    ensures end - 1 == start + 1 + |FlattenAll(n.children)|
    ensures all[start + 1..end - 1] == FlattenAll(n.children) && all[end - 1].Close?
  {
    FlattenBranch(n.kind, n.children);
    ContentFitsNode(n);
    var own, inner := Flatten(n), FlattenAll(n.children);
    assert own == [Open(n.kind)] + inner + [Close(n.kind)] && |own| == |inner| + 2;
    hide *;
    MiddleSlice([Open(n.kind)], inner, [Close(n.kind)]);
    SubSlice(all, start, own, 1, 1 + |inner|);
    assert all[end - 1] == all[start..end][end - 1 - start] == own[|inner| + 1];
  }

  /** The block that the search builds for a path is the block of the document at that path. */
  lemma SearchedIsListed(doc: Doc, path: Path)
    requires SearchedBlock(doc, path)
    ensures Block(path, ContentStart(doc, path), Kids(BlockNode(doc, path))) in Blocks(doc, [], 0)
  {
    hide FlattenAll, NodeSize, StartBelow, Position;
    if !IsTextblock(doc) {
      NestedIsListed(doc, path);
      NestedBlock(doc, path);
      hide *;
    }
  }

  lemma NestedBlock(doc: Doc, path: Path)
    requires !IsTextblock(doc) && Reached(doc.children, path)
    ensures SearchedBlock(doc, path) && Block(path, ContentStart(doc, path), Kids(BlockNode(doc, path))) == BlockAt(doc.children, 0, [], path)
  {
    ReachedNode(doc.children, path);
    StartIsLeftSide(doc.children, 0, path);
    hide FlattenAll, NodeSize, StartBelow, Position, Reached, NodeAt;
    assert [] + path == path;
  }

  lemma NestedIsListed(doc: Doc, path: Path)
    requires !IsTextblock(doc) && Reached(doc.children, path)
    ensures BlockAt(doc.children, 0, [], path) in Blocks(doc, [], 0)
  {
    hide FlattenAll, NodeSize, Reached, BlockAt, BlocksFrom;
    NoOffset(doc.children);
    assert doc.children[0..] == doc.children;
    assert path != [] && path[0] >= 0 by {
      ReachedNode(doc.children, path);
    }
    ReachedIsListed(doc.children, [], 0, 0, path);
  }

  lemma ListedIsSearched(doc: Doc, b: Block)
    requires b in Blocks(doc, [], 0)
    ensures SearchedBlock(doc, b.path) && b.kids == Kids(BlockNode(doc, b.path)) && b.base == ContentStart(doc, b.path)
  {
    hide FlattenAll;
    if !IsTextblock(doc) {
      NoOffset(doc.children);
      assert doc.children[0..] == doc.children;
      var path := ListedIsReached(doc.children, [], 0, 0, b);
      assert [] + path == path;
      BlockContent(doc, path, Kids(BlockNode(doc, path)), ContentStart(doc, path), ContentEnd(doc, path));
    }
  }

  lemma SpelledInDoc(all: seq<Token>, kids: seq<Node>, start: nat, end: nat, x: nat, needle: string)
    requires end == start + |FlattenAll(kids)| && end <= |all| && all[start..end] == FlattenAll(kids)
    requires start <= x && x + |needle| <= end
    ensures SpelledAt(kids, start, x, needle) <==> Spells(all, x, needle)
  {
    var inner := FlattenAll(kids);
    hide FlattenAll;
    if SpelledAt(kids, start, x, needle) {
      forall j | x <= j < x + |needle|
        ensures IsChar(all[j], needle[j - x])
      {
        assert CharAt(kids, start, x + (j - x), needle[j - x]);
        assert all[start..end][j - start] == all[j];
      }
    }
    if Spells(all, x, needle) {
      forall k | 0 <= k < |needle|
        ensures CharAt(kids, start, x + k, needle[k])
      {
        assert IsChar(all[x + k], needle[x + k - x]);
        assert all[start..end][x + k - start] == all[x + k];
      }
    }
  }

  /**
   * Every match names a searched block, lies inside its content and spells the needle with
   * no atom inside; the matches come in document order and never overlap.
   */
  lemma AnchorSound(doc: Doc, needle: string)
    ensures forall m :: m in AllMatches(doc, needle) ==>
              && m.to == m.from + |needle|
              && SearchedBlock(doc, m.blockPath)
              && ContentStart(doc, m.blockPath) <= m.from && m.to <= ContentEnd(doc, m.blockPath)
              && Spells(FlattenAll(doc.children), m.from, needle)
    ensures InOrder(AllMatches(doc, needle))
  {
    if needle != "" {
      hide FlattenAll, Blocks, MatchesIn, MatchesInAll, SpelledAt, Spells;
      NodeBlocksOrdered(doc, [], 0);
      MatchesInOrder(Blocks(doc, [], 0), needle, 0, |FlattenAll(Kids(doc))|);
      forall m | m in AllMatches(doc, needle)
        ensures m.to == m.from + |needle| && SearchedBlock(doc, m.blockPath)
        ensures ContentStart(doc, m.blockPath) <= m.from && m.to <= ContentEnd(doc, m.blockPath)
        ensures Spells(FlattenAll(doc.children), m.from, needle)
      {
        var b := MatchHasBlock(Blocks(doc, [], 0), needle, m);
        ListedIsSearched(doc, b);
        MatchInBlock(b, needle, m);
        var start, end := ContentStart(doc, b.path), ContentEnd(doc, b.path);
        BlockContent(doc, b.path, b.kids, start, end);
        SpelledInDoc(FlattenAll(doc.children), b.kids, start, end, m.from, needle);
      }
    }
  }

  /**
   * Wherever the tokens of the document spell the needle from a character of a text child of
   * a searched block, that place is listed or starts inside a listed match of the block.
   */
  lemma AnchorComplete(doc: Doc, needle: string, path: Path, k: nat, x: nat)
    requires needle != "" && SearchedBlock(doc, path)
    requires k < |Kids(BlockNode(doc, path))| && Kids(BlockNode(doc, path))[k].Text?
    requires ContentStart(doc, path) + Offset(Kids(BlockNode(doc, path)), k) <= x
    requires x < ContentStart(doc, path) + Offset(Kids(BlockNode(doc, path)), k + 1)
    requires Spells(FlattenAll(doc.children), x, needle)
    ensures exists m :: m in AllMatches(doc, needle) && m.blockPath == path && m.from <= x < m.to
  {
    hide FlattenAll, Blocks, MatchesInAll, SpelledAt, Hits, DirectText, DirectPositions, NodeSize, ContentSize, Offset;
    var kids, start, end := Kids(BlockNode(doc, path)), ContentStart(doc, path), ContentEnd(doc, path);
    var all := FlattenAll(doc.children);
    BlockContent(doc, path, kids, start, end);
    SiblingTokens(kids, k, k + 1);
    SiblingTokens(kids, k + 1, |kids|);
    StaysInside(all, x, needle, end);
    SpelledInDoc(all, kids, start, end, x, needle);
    TextChildIsDirect(kids, start, k, x);
    var i := SpelledIsOccurrence(kids, start, needle, x);
    DirectTokens(kids, start);
    HitsComplete(DirectText(kids), DirectPositions(kids, start), needle, 0, path, i);
    var b := Block(path, start, kids);
    var m :| m in MatchesIn(b, needle) && m.blockPath == path && m.from <= x < m.to;
    SearchedIsListed(doc, path);
    BlockHasMatch(Blocks(doc, [], 0), needle, b, m);
  }

  lemma StaysInside(all: seq<Token>, x: nat, needle: string, end: nat)
    requires Spells(all, x, needle) && x < end <= |all|
    requires end < |all| ==> all[end].Close?
    ensures x + |needle| <= end
  {
    assert forall j :: x <= j < x + |needle| ==> IsChar(all[j], needle[j - x]);
  }

  lemma {:induction false} TextChildIsDirect(ns: seq<Node>, base: nat, k: nat, x: nat)
    requires k < |ns| && ns[k].Text? && base + Offset(ns, k) <= x < base + Offset(ns, k + 1)
    ensures IsDirect(ns, base, x)
  {
    hide FlattenAll, NodeSize, ContentSize, IsDirect, Offset;
    DirectIsTextChild(ns, base, x);
    if k > 0 {
      OffsetTail(ns, k);
      OffsetTail(ns, k + 1);
      TextChildIsDirect(ns[1..], base + NodeSize(ns[0]), k - 1, x);
    } else {
      OffsetStep(ns, 0);
      NoOffset(ns);
    }
  }

  lemma {:induction false} OffsetTail(ns: seq<Node>, k: nat)
    requires 0 < k <= |ns|
    ensures Offset(ns, k) == NodeSize(ns[0]) + Offset(ns[1..], k - 1)
  {
    if k > 1 {
      OffsetTail(ns, k - 1);
    }
  }

  // ----- choosing one match -----

  datatype AnchorError = AnchorTextNotFound | AmbiguousAnchor(blockPaths: seq<Path>)

  /** The indices of the matches inside exactly the given block, or of all of them. */
  function InBlock(ms: seq<Match>, blockPath: Option<Path>): set<nat> {
    set i: nat | i < |ms| && (blockPath.None? || ms[i].blockPath == blockPath.value)
  }

  /** How many matches of the block come before the `i`-th match. */
  function Rank(ms: seq<Match>, blockPath: Option<Path>, i: nat): nat
    requires i <= |ms|
  {
    |InBlock(ms[..i], blockPath)|
  }

  lemma RankStep(ms: seq<Match>, blockPath: Option<Path>, i: nat)
    requires i < |ms|
    ensures i !in InBlock(ms[..i], blockPath)
    ensures InBlock(ms[..i + 1], blockPath) == InBlock(ms[..i], blockPath) + (if i in InBlock(ms, blockPath) then {i} else {})
    ensures Rank(ms, blockPath, i + 1) == Rank(ms, blockPath, i) + (if i in InBlock(ms, blockPath) then 1 else 0)
  {
    assert forall j: nat :: j < i ==> ms[..i + 1][j] == ms[j] == ms[..i][j];
  }

  /** `at` lists the matches of the block among the first `i`, in order. */
  ghost predicate Lists(at: seq<nat>, ms: seq<Match>, blockPath: Option<Path>, i: nat)
    requires i <= |ms|
  {
    && |at| == Rank(ms, blockPath, i)
    && (forall k :: 0 <= k < |at| ==> at[k] < i && at[k] in InBlock(ms, blockPath) && Rank(ms, blockPath, at[k]) == k)
    && (forall j :: j in InBlock(ms[..i], blockPath) ==> j in at)
  }

  lemma ListsStep(at: seq<nat>, ms: seq<Match>, blockPath: Option<Path>, i: nat)
    requires i < |ms| && Lists(at, ms, blockPath, i)
    ensures Lists(if i in InBlock(ms, blockPath) then at + [i] else at, ms, blockPath, i + 1)
  {
    RankStep(ms, blockPath, i);
    hide InBlock, Rank;
  }

  lemma ListsAll(at: seq<nat>, ms: seq<Match>, blockPath: Option<Path>)
    requires Lists(at, ms, blockPath, |ms|)
    ensures |at| == |InBlock(ms, blockPath)|
    ensures forall j :: j in InBlock(ms, blockPath) ==> Rank(ms, blockPath, j) < |at| && at[Rank(ms, blockPath, j)] == j
    ensures forall k :: 0 <= k < |at| ==> at[k] < |ms| && at[k] in InBlock(ms, blockPath) && Rank(ms, blockPath, at[k]) == k
    ensures |at| == 1 ==> InBlock(ms, blockPath) == {at[0]}
  {
    assert ms[..|ms|] == ms;
    hide InBlock, Rank;
    forall j | j in InBlock(ms, blockPath)
      ensures Rank(ms, blockPath, j) < |at| && at[Rank(ms, blockPath, j)] == j
    {
      var k :| 0 <= k < |at| && at[k] == j;
    }
  }

  /** The paths of the matches of the block, in order. */
  ghost predicate IsPathsOf(paths: seq<Path>, ms: seq<Match>, blockPath: Option<Path>) {
    && |paths| == |InBlock(ms, blockPath)|
    && forall i :: i in InBlock(ms, blockPath) ==> Rank(ms, blockPath, i) < |paths| && paths[Rank(ms, blockPath, i)] == ms[i].blockPath
  }

  lemma InBlockIff(ms: seq<Match>, blockPath: Option<Path>, i: nat)
    ensures i in InBlock(ms, blockPath) <==> i < |ms| && (blockPath.None? || ms[i].blockPath == blockPath.value)
  {
  }

  /** The `occurrence`-th match of the block, or the only one; a choice among several is never made silently. */
  method SelectAnchorMatch(ms: seq<Match>, blockPath: Option<Path>, occurrence: Option<int>) returns (r: Result<Match, AnchorError>)
    ensures occurrence.Some? ==>
              if 1 <= occurrence.value <= |InBlock(ms, blockPath)|
              then exists i :: i in InBlock(ms, blockPath) && r == Ok(ms[i]) && Rank(ms, blockPath, i) == occurrence.value - 1
              else r == Err(AnchorTextNotFound)
    ensures occurrence.None? ==>
              && (InBlock(ms, blockPath) == {} ==> r == Err(AnchorTextNotFound))
              && (|InBlock(ms, blockPath)| == 1 ==> exists i :: InBlock(ms, blockPath) == {i} && r == Ok(ms[i]))
              && (|InBlock(ms, blockPath)| > 1 ==> r.Err? && r.error.AmbiguousAnchor? && IsPathsOf(r.error.blockPaths, ms, blockPath))
  {
    hide InBlock, Rank, Lists, IsPathsOf;
    var candidates: seq<Match> := [];
    ghost var at: seq<nat> := [];
    NothingListed(ms, blockPath);
    for i := 0 to |ms|
      invariant Lists(at, ms, blockPath, i) && |candidates| == |at|
      invariant forall k :: 0 <= k < |at| ==> at[k] < |ms| && candidates[k] == ms[at[k]]
    {
      ListsStep(at, ms, blockPath, i);
      InBlockIff(ms, blockPath, i);
      if blockPath.None? || ms[i].blockPath == blockPath.value {
        candidates, at := candidates + [ms[i]], at + [i];
      }
    }
    ListsAll(at, ms, blockPath);
    if occurrence.Some? {
      if 1 <= occurrence.value <= |candidates| {
        assert at[occurrence.value - 1] in InBlock(ms, blockPath);
        return Ok(candidates[occurrence.value - 1]);
      }
      return Err(AnchorTextNotFound);
    }
    if |candidates| == 0 {
      return Err(AnchorTextNotFound);
    }
    if |candidates| > 1 {
      var paths := seq(|candidates|, i requires 0 <= i < |candidates| => candidates[i].blockPath);
      PathsListed(at, paths, ms, blockPath);
      return Err(AmbiguousAnchor(paths));
    }
    return Ok(candidates[0]);
  }

  lemma PathsListed(at: seq<nat>, paths: seq<Path>, ms: seq<Match>, blockPath: Option<Path>)
    requires Lists(at, ms, blockPath, |ms|)
    requires |paths| == |at| && forall k :: 0 <= k < |at| ==> at[k] < |ms| && paths[k] == ms[at[k]].blockPath
    ensures IsPathsOf(paths, ms, blockPath)
  {
    ListsAll(at, ms, blockPath);
    hide InBlock, Rank, Lists;
  }

  lemma NothingListed(ms: seq<Match>, blockPath: Option<Path>)
    ensures Lists([], ms, blockPath, 0)
  {
    assert InBlock(ms[..0], blockPath) == {};
  }

  /** The matches of the block that end before the place `x`. */
  function EndedBy(ms: seq<Match>, blockPath: Option<Path>, x: nat): set<Match> {
    set m | m in ms && (blockPath.Some? ==> m.blockPath == blockPath.value) && m.to <= x
  }

  /** In the list of a document's matches, the rank is the place in document order. */
  lemma RankIsDocumentOrder(doc: Doc, needle: string, blockPath: Option<Path>, i: nat)
    requires i < |AllMatches(doc, needle)|
    ensures var ms := AllMatches(doc, needle); Rank(ms, blockPath, i) == |EndedBy(ms, blockPath, ms[i].from)|
  {
    var ms := AllMatches(doc, needle);
    AnchorSound(doc, needle);
    hide AllMatches, SearchedBlock, Spells, Rank;
    forall m | m in ms
      ensures m.from < m.to
    {
      assert needle != "" by {
        SomethingFound(doc, needle);
      }
    }
    var last := ms[i].from;
    assert EndedBy(ms, blockPath, last) == EndedBy(ms[..i], blockPath, last) by {
      assert forall j :: i <= j < |ms| ==> ms[j].from >= last && ms[j].to > last;
    }
    RankCounts(ms, blockPath, i, last);
  }

  lemma SomethingFound(doc: Doc, needle: string)
    requires AllMatches(doc, needle) != []
    ensures needle != ""
  {
  }

  lemma EndedStep(ms: seq<Match>, blockPath: Option<Path>, i: nat, x: nat)
    requires i < |ms| && InOrder(ms) && ms[i].from < ms[i].to <= x
    ensures var few := EndedBy(ms[..i], blockPath, x);
            && ms[i] !in few
            && EndedBy(ms[..i + 1], blockPath, x) == few + (if blockPath.Some? && ms[i].blockPath != blockPath.value then {} else {ms[i]})
  {
    assert ms[..i + 1] == ms[..i] + [ms[i]];
  }

  lemma {:induction false} RankCounts(ms: seq<Match>, blockPath: Option<Path>, i: nat, x: nat)
    requires i <= |ms| && InOrder(ms) && forall j :: 0 <= j < |ms| ==> ms[j].from < ms[j].to
    requires forall j :: 0 <= j < i ==> ms[j].to <= x
    ensures |EndedBy(ms[..i], blockPath, x)| == Rank(ms, blockPath, i)
  {
    if i > 0 {
      var m, few := ms[i - 1], EndedBy(ms[..i - 1], blockPath, x);
      RankCounts(ms, blockPath, i - 1, x);
      RankStep(ms, blockPath, i - 1);
      InBlockIff(ms, blockPath, i - 1);
      EndedStep(ms, blockPath, i - 1, x);
      hide InBlock, Rank, EndedBy, InOrder;
    }
  }

  lemma OnlyOne(s: set<nat>, i: nat, j: nat)
    requires |s| == 1 && i in s && j in s
    ensures i == j
  {
    assert |s - {i}| == 0;
  }

  lemma OneInBlock(ms: seq<Match>, path: Path, m: Match, found: Match)
    requires |InBlock(ms, Some(path))| == 1
    requires m in ms && m.blockPath == path && found in ms && found.blockPath == path
    ensures m == found
  {
    var i: nat :| i < |ms| && ms[i] == found;
    var j: nat :| j < |ms| && ms[j] == m;
    InBlockIff(ms, Some(path), i);
    InBlockIff(ms, Some(path), j);
    hide InBlock;
    OnlyOne(InBlock(ms, Some(path)), i, j);
  }

  /** When one candidate is left in a block, every occurrence of the text in that block starts inside it. */
  lemma OnlyCandidateCovers(doc: Doc, needle: string, path: Path, k: nat, x: nat, m: Match)
    requires |InBlock(AllMatches(doc, needle), Some(path))| == 1
    requires m in AllMatches(doc, needle) && m.blockPath == path
    requires needle != "" && SearchedBlock(doc, path)
    requires k < |Kids(BlockNode(doc, path))| && Kids(BlockNode(doc, path))[k].Text?
    requires ContentStart(doc, path) + Offset(Kids(BlockNode(doc, path)), k) <= x
    requires x < ContentStart(doc, path) + Offset(Kids(BlockNode(doc, path)), k + 1)
    requires Spells(FlattenAll(doc.children), x, needle)
    ensures m.blockPath == path && m.from <= x < m.to
  {
    AnchorComplete(doc, needle, path, k, x);
    hide *;
    var ms := AllMatches(doc, needle);
    var found :| found in ms && found.blockPath == path && found.from <= x < found.to;
    OneInBlock(ms, path, m, found);
  }
}
