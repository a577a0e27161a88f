/**
 * The body edit read from its operations: which error a batch ends in, what one operation
 * makes of the document, and how two of them share it.
 */
module DocEditLaws {
  import opened Prelude
  import opened SeqFacts
  import opened DocTree
  import opened DocPaths
  import opened TokenEdit
  import opened DocBodyEdit

  // ----- the errors of a batch -----

  /** The name of a node's type as callers write it. */
  predicate Named(n: Node, t: string) {
    match n
    case Text(_, _) => t == "text"
    case Leaf(kind) => t == kind.name
    case Branch(kind, _) => t == kind.name
  }

  predicate Fits(n: Node, want: Option<string>) {
    want == None || Named(n, want.value)
  }

  /** A range that names the top node, two parents, or its ends in the wrong order. */
  predicate IllRanged(op: Op) {
    !op.Insert? &&
    (op.from == [] || op.to == [] || op.from[..|op.from| - 1] != op.to[..|op.to| - 1] || op.from[|op.from| - 1] > op.to[|op.to| - 1])
  }

  /** The node an operation is anchored at: the top node for an insert at the root, the first of a range. */
  function AnchorNode(doc: Doc, op: Op): Option<Node> {
    if op.Insert? then
      if op.path == [] then (if op.position.InsideStart? || op.position.InsideEnd? then Some(doc) else None)
      else if ValidPath(doc.children, op.path) then Some(NodeAt(doc.children, op.path))
      else None
    else if !IllRanged(op) && ValidPath(doc.children, op.from) && ValidPath(doc.children, op.to) then Some(NodeAt(doc.children, op.from))
    else None
  }

  predicate Right(doc: Doc, op: Op) {
    AnchorNode(doc, op).Some? && Fits(AnchorNode(doc, op).value, op.want) && (op.Delete? || op.content != [])
  }

  lemma VerdictIs(doc: Doc, op: Op)
    ensures OpVerdict(doc, op) == None <==> Right(doc, op)
    ensures OpVerdict(doc, op) == Some(AnchorMismatch) <==> AnchorNode(doc, op).Some? && !Fits(AnchorNode(doc, op).value, op.want)
    ensures OpVerdict(doc, op) == Some(AnchorNotFound) <==> AnchorNode(doc, op).None? && !IllRanged(op)
  {
    hide ValidPath, NodeAt;
  }

  /** The first operation of a batch that is not right. */
  predicate FirstWrong(doc: Doc, ops: seq<Op>, i: int) {
    0 <= i < |ops| && !Right(doc, ops[i]) && forall k :: 0 <= k < i ==> Right(doc, ops[k])
  }

  lemma {:induction false} FirstBadIs(doc: Doc, ops: seq<Op>) returns (i: int)
    ensures FirstBad(doc, ops).Some? ==> FirstWrong(doc, ops, i) && FirstBad(doc, ops) == OpVerdict(doc, ops[i])
    ensures FirstBad(doc, ops).None? ==> forall k :: 0 <= k < |ops| ==> Right(doc, ops[k])
  {
    hide OpVerdict, Right;
    i := 0;
    if ops != [] {
      VerdictIs(doc, ops[0]);
      if OpVerdict(doc, ops[0]).None? {
        i := FirstBadIs(doc, ops[1..]);
        assert forall k :: 0 < k < |ops| ==> ops[k] == ops[1..][k - 1];
        i := i + 1;
      }
    }
  }

  lemma OneFirstWrong(doc: Doc, ops: seq<Op>, i: int, j: int)
    requires FirstWrong(doc, ops, i) && FirstWrong(doc, ops, j)
    ensures i == j
  {
    hide Right;
  }

  /**
   * The first operation that is not right decides the error of a batch: a node of another type
   * than the caller counts on is a mismatch, no node at all is not found. Batches without one
   * end in neither.
   */
  lemma BatchErrors(doc: Doc, ops: seq<Op>)
    ensures Outcome(doc, ops) == Err(AnchorMismatch) <==>
            exists i :: FirstWrong(doc, ops, i) && AnchorNode(doc, ops[i]).Some? && !Fits(AnchorNode(doc, ops[i]).value, ops[i].want)
    ensures Outcome(doc, ops) == Err(AnchorNotFound) <==>
            exists i :: FirstWrong(doc, ops, i) && AnchorNode(doc, ops[i]).None? && !IllRanged(ops[i])
    ensures Outcome(doc, ops).Ok? ==> ops != [] && forall i :: 0 <= i < |ops| ==> Right(doc, ops[i])
  {
    var i := FirstBadIs(doc, ops);
    hide OpVerdict, Right, AnchorNode, Fits, IllRanged, FirstBad, Simultaneous, AllCompatible, DuplicateAnchor;
    if FirstBad(doc, ops).Some? {
      VerdictIs(doc, ops[i]);
      forall j | FirstWrong(doc, ops, j)
        ensures j == i
      {
        OneFirstWrong(doc, ops, i, j);
      }
    }
  }

  // ----- the tokens of a batch -----

  function Content(op: Op): seq<Node> {
    if op.Delete? then [] else op.content
  }

  /** The stretch of the document that an operation replaces; an insert replaces nothing. */
  predicate Replaces(doc: Doc, op: Op, from: nat, to: nat) {
    if op.Insert? then
      && from == to
      && (op.path == [] ==> from == if op.position.InsideStart? then 0 else |FlattenAll(doc.children)|)
      && (op.path != [] ==>
            && ValidPath(doc.children, op.path)
            && var a := AnchorAt(doc, op.path);
               (op.position.BeforeIt? ==> from == a.start) && (op.position.AfterIt? ==> from == a.end)
               && (op.position.InsideStart? ==> from == a.start + 1) && (op.position.InsideEnd? ==> from == a.end - 1))
    else
      && ValidPath(doc.children, op.from) && ValidPath(doc.children, op.to)
      && from == AnchorAt(doc, op.from).start && to == AnchorAt(doc, op.to).end
  }

  lemma ResolvedIs(doc: Doc, op: Op, from: nat, to: nat)
    requires Right(doc, op) && Replaces(doc, op, from, to)
    ensures OpVerdict(doc, op) == None
    ensures Resolved(doc, op) == ResolvedOp(op.Insert?, from, to, Content(op))
    ensures InBounds(Resolved(doc, op), |FlattenAll(doc.children)|)
  {
    VerdictIs(doc, op);
    hide FlattenAll, ValidPath, NodeAt, Position, OpVerdict, Right;
    ResolvedInBounds(doc, op);
  }

  lemma OneIsSorted(a: ResolvedOp)
    ensures StableSort([a]) == [a]
  {
    assert [a][..0] == [];
  }

  /** One operation replaces its stretch and nothing else. */
  lemma OneOp(doc: Doc, op: Op, from: nat, to: nat)
    requires Right(doc, op) && Replaces(doc, op, from, to)
    ensures var all := FlattenAll(doc.children);
            from <= to <= |all| && Outcome(doc, [op]) == Ok(all[..from] + FlattenAll(Content(op)) + all[to..])
  {
    ResolvedIs(doc, op, from, to);
    var all, a := FlattenAll(doc.children), Resolved(doc, op);
    assert FirstBad(doc, [op]) == None by {
      assert [op][1..] == [];
    }
    AllGood(doc, [op]);
    assert ResolvedAll(doc, [op]) == [a];
    hide FlattenAll, Resolved, OpVerdict, Simultaneous, Right, Replaces, FirstBad;
    OneSplice(all, a);
  }

  lemma OneSplice(ts: seq<Token>, a: ResolvedOp)
    requires InBounds(a, |ts|)
    ensures Simultaneous(ts, [a]) == ts[..a.from] + FlattenAll(a.nodes) + ts[a.to..]
  {
    hide FlattenAll, Simultaneous;
    SplicesAreSimultaneous(ts, [a]);
    OneIsSorted(a);
    assert [a][1..] == [];
    assert RunSplices(ts, [a], |ts|) == RunSplices(Splice(ts, a), [], a.from);
  }

  /** The operation of the batch that lies further left, or is an insert where the other starts. */
  predicate LeftOf(a: ResolvedOp, b: ResolvedOp) {
    a.to <= b.from && (a.from < b.from || !b.isInsert)
  }

  lemma PairIsSorted(a: ResolvedOp, b: ResolvedOp)
    requires LeftOf(a, b) && a.from <= a.to && (a.isInsert <==> a.from == a.to)
    ensures StableSort([a, b]) == [b, a] && StableSort([b, a]) == [b, a]
  {
    SortOfTwo(a, b);
    SortOfTwo(b, a);
  }

  lemma SortOfTwo(a: ResolvedOp, b: ResolvedOp)
    ensures StableSort([a, b]) == if SortsBefore(b, a) then [b, a] else [a, b]
  {
    OneIsSorted(a);
    hide SortsBefore;
    var ab := [a, b];
    assert ab[..1] == [a] && ab[1] == b && [a][1..] == [];
    assert StableSort(ab) == InsertSorted(StableSort(ab[..1]), b);
    assert InsertSorted([], b) == [b];
  }

  lemma TwoSplices(ts: seq<Token>, a: ResolvedOp, b: ResolvedOp)
    requires a.from <= a.to <= b.from <= b.to <= |ts|
    requires Descends([b, a], |ts|)
    ensures RunSplices(ts, [b, a], |ts|) == ts[..a.from] + FlattenAll(a.nodes) + ts[a.to..b.from] + FlattenAll(b.nodes) + ts[b.to..]
  {
    hide *;
    SpliceIsCut(ts, b);
    var mid := Splice(ts, b);
    TwoSteps(ts, a, b);
    LeftPart(ts, b, FlattenAll(b.nodes), a.to);
    LeftPart(ts, b, FlattenAll(b.nodes), a.from);
    SpliceIsCut(mid, a);
    Regroup(ts[..a.from] + FlattenAll(a.nodes), ts[a.to..b.from], FlattenAll(b.nodes), ts[b.to..]);
    Assoc(ts[a.to..b.from], FlattenAll(b.nodes), ts[b.to..]);
  }

  lemma TwoSteps(ts: seq<Token>, a: ResolvedOp, b: ResolvedOp)
    requires a.from <= a.to <= b.from <= b.to <= |ts| && Descends([b, a], |ts|)
    ensures a.to <= |Splice(ts, b)| && RunSplices(ts, [b, a], |ts|) == Splice(Splice(ts, b), a)
  {
    hide FlattenAll;
    assert [b, a][1..] == [a] && [a][1..] == [];
    var mid := Splice(ts, b);
    assert RunSplices(ts, [b, a], |ts|) == RunSplices(mid, [a], b.from) == RunSplices(Splice(mid, a), [], a.from);
  }

  lemma SpliceIsCut(ts: seq<Token>, a: ResolvedOp)
    requires a.from <= a.to <= |ts|
    ensures Splice(ts, a) == ts[..a.from] + FlattenAll(a.nodes) + ts[a.to..]
  {
    hide FlattenAll;
  }

  lemma LeftPart(ts: seq<Token>, b: ResolvedOp, part: seq<Token>, i: nat)
    requires i <= b.from <= b.to <= |ts|
    ensures var mid := ts[..b.from] + part + ts[b.to..]; mid[..i] == ts[..i] && mid[i..] == ts[i..b.from] + part + ts[b.to..]
  {
  }

  /** Two operations side by side, in either order of the batch; an insert goes ahead of a range that starts there. */
  lemma TwoApart(ts: seq<Token>, a: ResolvedOp, b: ResolvedOp)
    requires InBounds(a, |ts|) && InBounds(b, |ts|) && LeftOf(a, b)
    ensures Simultaneous(ts, [a, b]) == Simultaneous(ts, [b, a])
         == ts[..a.from] + FlattenAll(a.nodes) + ts[a.to..b.from] + FlattenAll(b.nodes) + ts[b.to..]
  {
    hide FlattenAll, Simultaneous, StableSort;
    SplicesAreSimultaneous(ts, [a, b]);
    SplicesAreSimultaneous(ts, [b, a]);
    PairIsSorted(a, b);
    TwoSplices(ts, a, b);
  }

  /** Two inserts at one position: the later of the batch comes first in the document. */
  lemma TwoAtOnePlace(ts: seq<Token>, a: ResolvedOp, b: ResolvedOp)
    requires InBounds(a, |ts|) && InBounds(b, |ts|) && a.isInsert && b.isInsert && a.from == b.from
    ensures Simultaneous(ts, [a, b]) == ts[..a.from] + FlattenAll(b.nodes) + FlattenAll(a.nodes) + ts[a.from..]
  {
    hide FlattenAll, Simultaneous;
    SplicesAreSimultaneous(ts, [a, b]);
    SortOfTwo(a, b);
    hide StableSort;
    TwoSplices(ts, b, a);
    assert ts[b.to..a.from] == [];
  }

  /**
   * Two operations, in terms of the stretches they replace: refused when they are inserts at one
   * anchor or reach into each other, and otherwise each replaces its own stretch, with an insert
   * ahead of a range that starts there and a later insert ahead of an earlier one.
   */
  lemma TwoOps(doc: Doc, p: Op, q: Op, from: nat, to: nat, from': nat, to': nat)
    requires Right(doc, p) && Replaces(doc, p, from, to) && Right(doc, q) && Replaces(doc, q, from', to')
    ensures var all := FlattenAll(doc.children);
            && from <= to <= |all| && from' <= to' <= |all|
            && Outcome(doc, [p, q]) ==
               if p.Insert? && q.Insert? && p.path == q.path && p.position == q.position then Err(InvalidOps)
               else if p.Insert? && q.Insert? && from == from' then Ok(all[..from] + FlattenAll(Content(q)) + FlattenAll(Content(p)) + all[from..])
               else if to <= from' && (from < from' || !q.Insert?) then
                 Ok(all[..from] + FlattenAll(Content(p)) + all[to..from'] + FlattenAll(Content(q)) + all[to'..])
               else if to' <= from && (from' < from || !p.Insert?) then
                 Ok(all[..from'] + FlattenAll(Content(q)) + all[to'..from] + FlattenAll(Content(p)) + all[to..])
               else Err(InvalidOps)
  {
    ResolvedIs(doc, p, from, to);
    ResolvedIs(doc, q, from', to');
    var all, a, b := FlattenAll(doc.children), Resolved(doc, p), Resolved(doc, q);
    NoneBad(doc, p, q);
    AllGood(doc, [p, q]);
    OnePair(p, q, a, b);
    hide FlattenAll, Resolved, OpVerdict, Simultaneous, Right, Replaces, FirstBad, DuplicateAnchor, AllCompatible;
    assert ResolvedAll(doc, [p, q]) == [a, b];
    if a.isInsert && b.isInsert && a.from == b.from {
      TwoAtOnePlace(all, a, b);
    } else if LeftOf(a, b) {
      TwoApart(all, a, b);
    } else if LeftOf(b, a) {
      TwoApart(all, b, a);
    }
  }

  lemma OnePair(p: Op, q: Op, a: ResolvedOp, b: ResolvedOp)
    ensures DuplicateAnchor([p, q]) <==> p.Insert? && q.Insert? && p.path == q.path && p.position == q.position
    ensures AllCompatible([a, b]) <==> Compatible(a, b)
  {
    var ps, rs := [p, q], [a, b];
    assert ps[0] == p && ps[1] == q && rs[0] == a && rs[1] == b;
  }

  lemma NoneBad(doc: Doc, p: Op, q: Op)
    requires OpVerdict(doc, p) == None && OpVerdict(doc, q) == None
    ensures FirstBad(doc, [p, q]) == None
  {
    hide OpVerdict;
    assert [p, q][1..] == [q] && [q][1..] == [];
    assert FirstBad(doc, [q]) == None;
  }

  // ----- paths -----

  /** A path reaches one level further exactly into the children of a branch that it reaches. */
  lemma {:induction false} PathsGrow(ns: seq<Node>, path: Path, i: int)
    ensures ValidPath(ns, path + [i]) <==>
            if path == [] then 0 <= i < |ns|
            else ValidPath(ns, path) && NodeAt(ns, path).Branch? && 0 <= i < |NodeAt(ns, path).children|
    ensures ValidPath(ns, path + [i]) ==> NodeAt(ns, path + [i]) == if path == [] then ns[i] else NodeAt(ns, path).children[i]
    decreases |path|
  {
    var longer := path + [i];
    if path == [] {
      assert longer == [i] && longer[1..] == [];
    } else {
      assert longer[0] == path[0] && longer[1..] == path[1..] + [i];
      if 0 <= path[0] < |ns| {
        PathsGrow(Kids(ns[path[0]]), path[1..], i);
      }
    }
  }

  /** The path leads to no empty text. */
  predicate NotEmptyAt(ns: seq<Node>, path: Path) {
    ValidPath(ns, path) && NodeAt(ns, path).Text? ==> NodeAt(ns, path).chars != ""
  }

  /** A document is well formed exactly when no path leads to an empty text. */
  lemma {:induction false} WellFormedIff(ns: seq<Node>)
    ensures WellFormedAll(ns) <==> forall path: Path :: NotEmptyAt(ns, path)
    decreases ns
  {
    forall i | 0 <= i < |ns|
      ensures WellFormed(ns[i]) <==> forall path: Path :: path != [] && path[0] == i ==> NotEmptyAt(ns, path)
    {
      if ns[i].Branch? {
        WellFormedIff(ns[i].children);
      }
      NotEmptyIn(ns, i);
    }
    hide WellFormed, NotEmptyAt;
    forall path: Path | path == [] || !(0 <= path[0] < |ns|)
      ensures NotEmptyAt(ns, path)
    {
      NoStep(ns, path);
    }
    assert WellFormedAll(ns) <==> forall i :: 0 <= i < |ns| ==> WellFormed(ns[i]);
  }

  lemma NoStep(ns: seq<Node>, path: Path)
    requires path == [] || !(0 <= path[0] < |ns|)
    ensures NotEmptyAt(ns, path)
  {
  }

  lemma NotEmptyIn(ns: seq<Node>, i: nat)
    requires i < |ns| && (ns[i].Branch? ==> (WellFormedAll(ns[i].children) <==> forall path: Path :: NotEmptyAt(ns[i].children, path)))
    ensures WellFormed(ns[i]) <==> forall path: Path :: path != [] && path[0] == i ==> NotEmptyAt(ns, path)
  {
    var n := ns[i];
    assert WellFormed(n) <==> (n.Text? ==> n.chars != "") && (n.Branch? ==> forall path: Path :: NotEmptyAt(n.children, path));
    forall path: Path | path != [] && path[0] == i
      ensures NotEmptyAt(ns, path) <==> if |path| == 1 then (n.Text? ==> n.chars != "") else (n.Branch? ==> NotEmptyAt(n.children, path[1..]))
    {
      StepInto(ns, i, path);
    }
    hide WellFormed, NotEmptyAt;
    assert [i] != [] && [i][0] == i;
    assert NotEmptyAt(ns, [i]) <==> (n.Text? ==> n.chars != "");
    if n.Branch? && forall path: Path :: path != [] && path[0] == i ==> NotEmptyAt(ns, path) {
      forall path: Path
        ensures NotEmptyAt(n.children, path)
      {
        if path == [] {
          NoStep(n.children, path);
        } else {
          var longer := [i] + path;
          assert longer[1..] == path && NotEmptyAt(ns, longer);
        }
      }
    }
  }

  lemma StepInto(ns: seq<Node>, i: nat, path: Path)
    requires i < |ns| && path != [] && path[0] == i
    ensures |path| == 1 ==> ValidPath(ns, path) && NodeAt(ns, path) == ns[i]
    ensures |path| > 1 ==> (ValidPath(ns, path) <==> ns[i].Branch? && ValidPath(ns[i].children, path[1..]))
    ensures |path| > 1 && ValidPath(ns, path) ==> NodeAt(ns, path) == NodeAt(ns[i].children, path[1..])
  {
    if |path| > 1 && !ns[i].Branch? {
      assert Kids(ns[i]) == [];
    }
  }
}
