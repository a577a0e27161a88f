/**
 * The incremental body edit: block paths are resolved against the original document, the
 * batch is checked, sorted and run as splices.
 */
module DocBodyEdit {
  import opened Prelude
  import opened DocTree
  import opened DocPaths
  import opened TokenEdit
  import opened TreeEdit

  // Schema parsing, the content fitter and the final schema check of the editor library are
  // outside the model: a step that fits trivially is a plain splice of the flattened content.

  datatype InsertPosition = BeforeIt | AfterIt | InsideStart | InsideEnd

  datatype EditError = AnchorNotFound | AnchorMismatch | InvalidOps

  /** `want` is the node type the caller counts on at the anchor. */
  datatype Op =
    | Insert(path: Path, position: InsertPosition, want: Option<string>, content: seq<Node>)
    | Replace(from: Path, to: Path, want: Option<string>, content: seq<Node>)
    | Delete(from: Path, to: Path, want: Option<string>)

  /** A document: its top node is a branch, and no text in it is empty. */
  type Doc = n: Node | n.Branch? && WellFormed(n) witness Branch(Kind("doc", "", false), [])

  datatype Anchor = Anchor(node: Node, start: nat, end: nat)

  // ----- resolving a block path -----

  /** The open position of the addressed node, accumulated on the way down. */
  function StartBelow(ns: seq<Node>, base: nat, path: Path): nat
    requires ValidPath(ns, path)
    decreases |path|
  {
    var start := base + Offset(ns, path[0]);
    if |path| == 1 then start else StartBelow(Kids(ns[path[0]]), start + 1, path[1..])
  }

  lemma {:induction false} StartIsLeftSide(ns: seq<Node>, base: nat, path: Path)
    requires ValidPath(ns, path)
    ensures ValidBoundary(ns, Before(path)) && ValidBoundary(ns, After(path))
    ensures Position(ns, base, Before(path)) == StartBelow(ns, base, path)
    ensures Position(ns, base, After(path)) == StartBelow(ns, base, path) + NodeSize(NodeAt(ns, path))
    decreases |path|
  {
    hide FlattenAll, NodeSize, ContentSize;
    PathSides(ns, path);
    if |path| == 1 {
      OffsetStep(ns, path[0]);
    } else {
      assert ns[path[0]].Branch?;
      StartIsLeftSide(Kids(ns[path[0]]), base + Offset(ns, path[0]) + 1, path[1..]);
      assert Parent(path)[1..] == Parent(path[1..]);
    }
  }

  lemma {:induction false} NodeIsWellFormed(ns: seq<Node>, path: Path)
    requires WellFormedAll(ns) && ValidPath(ns, path)
    ensures WellFormed(NodeAt(ns, path))
    decreases |path|
  {
    assert WellFormed(ns[path[0]]);
    if |path| > 1 {
      NodeIsWellFormed(Kids(ns[path[0]]), path[1..]);
    }
  }

  /** The addressed node and the positions of its two sides. */
  function AnchorAt(doc: Doc, path: Path): (a: Anchor)
    requires ValidPath(doc.children, path)
    ensures a.end == a.start + NodeSize(a.node) && a.start < a.end
  {
    var ns := doc.children;
    StartIsLeftSide(ns, 0, path);
    NodeIsWellFormed(ns, path);
    SizePositive(NodeAt(ns, path));
    Anchor(NodeAt(ns, path), Position(ns, 0, Before(path)), Position(ns, 0, After(path)))
  }

  lemma OffsetStep(ns: seq<Node>, i: nat)
    requires i < |ns|
    ensures Offset(ns, i + 1) == Offset(ns, i) + NodeSize(ns[i])
  {
  }

  /** The addressed interval holds exactly the tokens of the addressed node. */
  lemma AnchorTokens(doc: Doc, path: Path)
    requires ValidPath(doc.children, path)
    ensures var a := AnchorAt(doc, path);
            && a.start < a.end <= |FlattenAll(doc.children)|
            && FlattenAll(doc.children)[a.start..a.end] == Flatten(a.node)
  {
    var ns := doc.children;
    PathSides(ns, path);
    SiblingsOfNode(ns, path);
    var a, sib, k := AnchorAt(doc, path), Siblings(ns, Parent(path)), Last(path);
    RangeTokens(ns, 0, Parent(path), k, k, a.start, a.end);
    assert sib[k..k + 1] == [a.node];
    FlattenOne(a.node);
  }

  method ResolveBlockPath(doc: Doc, path: Path) returns (r: Result<Anchor, EditError>)
    ensures r == if ValidPath(doc.children, path) then Ok(AnchorAt(doc, path)) else Err(AnchorNotFound)
  {
    hide FlattenAll, ContentSize, Position, ValidBoundary, WellFormed;
    if path == [] {
      return Err(AnchorNotFound);
    }
    var node: Node, contentStart: nat, start: nat := doc, 0, 0;
    var i := 0;
    while i < |path|
      invariant 0 <= i <= |path|
      invariant i < |path| ==> (ValidPath(doc.children, path) <==> ValidPath(Kids(node), path[i..]))
      invariant i < |path| && ValidPath(doc.children, path) ==>
                  && NodeAt(doc.children, path) == NodeAt(Kids(node), path[i..])
                  && StartBelow(doc.children, 0, path) == StartBelow(Kids(node), contentStart, path[i..])
      invariant i == |path| ==>
                  && ValidPath(doc.children, path)
                  && node == NodeAt(doc.children, path)
                  && start == StartBelow(doc.children, 0, path)
    {
      var rawIdx := path[i];
      var children := Kids(node);
      assert path[i..][0] == rawIdx && path[i..][1..] == path[i + 1..];
      if rawIdx < 0 || rawIdx >= |children| {
        return Err(AnchorNotFound);
      }
      var offset, k := contentStart, 0;
      while k < rawIdx
        invariant 0 <= k <= rawIdx
        invariant offset == contentStart + Offset(children, k)
      {
        offset := offset + NodeSize(children[k]);
        k := k + 1;
      }
      node := children[rawIdx];
      start := offset;
      contentStart := start + 1;
      i := i + 1;
    }
    StartIsLeftSide(doc.children, 0, path);
    r := Ok(Anchor(node, start, start + NodeSize(node)));
  }

  // ----- what an operation means -----

  function Mismatch(node: Node, want: Option<string>): bool {
    want.Some? && TypeName(node) != want.value
  }

  /**
   * The error a single operation raises, read off the document tree: `None` when it resolves.
   */
  function OpVerdict(doc: Doc, op: Op): Option<EditError> {
    match op
    case Insert(path, position, want, content) =>
      if path == [] then
        if position != InsideStart && position != InsideEnd then Some(AnchorNotFound)
        else if Mismatch(doc, want) then Some(AnchorMismatch)
        else if content == [] then Some(InvalidOps)
        else None
      else if !ValidPath(doc.children, path) then Some(AnchorNotFound)
      else if Mismatch(NodeAt(doc.children, path), want) then Some(AnchorMismatch)
      else if content == [] then Some(InvalidOps)
      else None
    case Replace(from, to, want, content) =>
      var range := RangeVerdict(doc, from, to, want);
      if range.Some? then range else if content == [] then Some(InvalidOps) else None
    case Delete(from, to, want) => RangeVerdict(doc, from, to, want)
  }

  function RangeVerdict(doc: Doc, from: Path, to: Path, want: Option<string>): Option<EditError> {
    if from == [] || to == [] then Some(InvalidOps)
    else if Parent(from) != Parent(to) then Some(InvalidOps)
    else if Last(from) > Last(to) then Some(InvalidOps)
    else if !ValidPath(doc.children, from) || !ValidPath(doc.children, to) then Some(AnchorNotFound)
    else if Mismatch(NodeAt(doc.children, from), want) then Some(AnchorMismatch)
    else None
  }

  /** The position at which an accepted operation starts, and at which it ends. */
  function Resolved(doc: Doc, op: Op): ResolvedOp
    requires OpVerdict(doc, op) == None
  {
    match op
    case Insert(path, position, _, content) =>
      var pos :=
        if path == [] then (if position == InsideStart then 0 else |FlattenAll(doc.children)|)
        else InsertionPos(AnchorAt(doc, path), position);
      ResolvedOp(true, pos, pos, content)
    case Replace(from, to, _, content) =>
      ResolvedOp(false, AnchorAt(doc, from).start, AnchorAt(doc, to).end, content)
    case Delete(from, to, _) =>
      ResolvedOp(false, AnchorAt(doc, from).start, AnchorAt(doc, to).end, [])
  }

  function InsertionPos(anchor: Anchor, position: InsertPosition): nat
    requires anchor.start < anchor.end
  {
    match position
    case BeforeIt => anchor.start
    case AfterIt => anchor.end
    case InsideStart => anchor.start + 1
    case InsideEnd => anchor.end - 1
  }

  /**
   * Does the operation land on a boundary of the tree? Everything does, except `inside_*`
   * anchored on a text of two or more characters, which lands between two characters.
   */
  predicate OnBoundary(doc: Doc, op: Op) {
    op.Insert? && op.path != [] && ValidPath(doc.children, op.path) && (op.position == InsideStart || op.position == InsideEnd) ==>
      NodeAt(doc.children, op.path).Text? ==> |NodeAt(doc.children, op.path).chars| <= 1
  }

  /**
   * The tree edit an accepted operation stands for. Inside a leaf there is no content: there
   * `inside_start` is the place after it and `inside_end` the place before it.
   */
  function Meaning(doc: Doc, op: Op): Edit
    requires OpVerdict(doc, op) == None
  {
    match op
    case Insert(path, position, _, content) => Put(InsertBoundary(doc, path, position), content)
    case Replace(from, to, _, content) => Swap(Parent(from), Last(from), Last(to), content)
    case Delete(from, to, _) => Swap(Parent(from), Last(from), Last(to), [])
  }

  function InsertBoundary(doc: Doc, path: Path, position: InsertPosition): Boundary
    requires path == [] || ValidPath(doc.children, path)
  {
    if path == [] then Boundary([], if position == InsideStart then 0 else |doc.children|)
    else
      var node := NodeAt(doc.children, path);
      match position
      case BeforeIt => Before(path)
      case AfterIt => After(path)
      case InsideStart => if node.Branch? then Boundary(path, 0) else After(path)
      case InsideEnd => if node.Branch? then Boundary(path, |node.children|) else Before(path)
  }

  // ----- resolved positions are the positions of the meaning -----

  lemma {:induction false} InsidePositions(ns: seq<Node>, base: nat, path: Path)
    requires ValidPath(ns, path) && NodeAt(ns, path).Branch?
    ensures var kids := NodeAt(ns, path).children;
            && ValidBoundary(ns, Boundary(path, 0))
            && ValidBoundary(ns, Boundary(path, |kids|))
            && Position(ns, base, Boundary(path, 0)) == StartBelow(ns, base, path) + 1
            && Position(ns, base, Boundary(path, |kids|)) == StartBelow(ns, base, path) + 1 + Offset(kids, |kids|)
    decreases |path|
  {
    hide FlattenAll, NodeSize, ContentSize, Offset;
    var kids := NodeAt(ns, path).children;
    if |path| == 1 {
      assert path[1..] == [];
      assert Offset(kids, 0) == 0 by {
        NoOffset(kids);
      }
    } else {
      InsidePositions(Kids(ns[path[0]]), base + Offset(ns, path[0]) + 1, path[1..]);
    }
  }

  lemma InsertIsPlaced(doc: Doc, path: Path, position: InsertPosition)
    requires ValidPath(doc.children, path)
    requires position == InsideStart || position == InsideEnd ==>
               NodeAt(doc.children, path).Text? ==> |NodeAt(doc.children, path).chars| <= 1
    ensures ValidBoundary(doc.children, InsertBoundary(doc, path, position))
    ensures Position(doc.children, 0, InsertBoundary(doc, path, position)) == InsertionPos(AnchorAt(doc, path), position)
  {
    var ns, node := doc.children, NodeAt(doc.children, path);
    hide FlattenAll, ContentSize, Position, ValidBoundary, StartBelow;
    StartIsLeftSide(ns, 0, path);
    if node.Branch? {
      ContentFitsNode(node);
      SiblingTokens(node.children, 0, |node.children|);
      InsidePositions(ns, 0, path);
    } else {
      NodeIsWellFormed(ns, path);
      assert NodeSize(node) == 1 || (node.Text? && |node.chars| > 1);
    }
  }

  /** An accepted operation resolves to exactly the positions of its tree edit. */
  lemma MeaningIsPlaced(doc: Doc, op: Op)
    requires OpVerdict(doc, op) == None && OnBoundary(doc, op)
    ensures ValidEdit(doc.children, Meaning(doc, op))
    ensures Placed(doc.children, Meaning(doc, op)) == Resolved(doc, op)
  {
    var ns := doc.children;
    match op
    case Insert(path, position, _, _) =>
      if path == [] {
        SiblingTokens(ns, 0, |ns|);
        NoOffset(ns);
      } else {
        InsertIsPlaced(doc, path, position);
      }
    case Replace(from, to, _, _) =>
      RangeIsPlaced(doc, from, to);
    case Delete(from, to, _) =>
      RangeIsPlaced(doc, from, to);
  }

  lemma RangeIsPlaced(doc: Doc, from: Path, to: Path)
    requires ValidPath(doc.children, from) && ValidPath(doc.children, to) && Parent(from) == Parent(to) && Last(from) <= Last(to)
    ensures ValidEdit(doc.children, Swap(Parent(from), Last(from), Last(to), []))
    ensures Placed(doc.children, Swap(Parent(from), Last(from), Last(to), [])).from == AnchorAt(doc, from).start
    ensures Placed(doc.children, Swap(Parent(from), Last(from), Last(to), [])).to == AnchorAt(doc, to).end
  {
    assert Parent(from) + [Last(from)] == from && Parent(from) + [Last(to)] == to;
    PathSides(doc.children, from);
    PathSides(doc.children, to);
  }

  /** The tokens a range removes are exactly its siblings. */
  lemma RangeRemoves(doc: Doc, from: Path, to: Path, sib: seq<Node>, start: nat, end: nat)
    requires ValidPath(doc.children, from) && ValidPath(doc.children, to) && Parent(from) == Parent(to) && Last(from) <= Last(to)
    requires sib == Siblings(doc.children, Parent(from))
    requires start == AnchorAt(doc, from).start && end == AnchorAt(doc, to).end
    ensures 0 <= Last(from) <= Last(to) < |sib|
    ensures start <= end <= |FlattenAll(doc.children)|
    ensures FlattenAll(doc.children)[start..end] == FlattenAll(sib[Last(from)..Last(to) + 1])
  {
    hide FlattenAll, Siblings, NodeAt, Position;
    PathSides(doc.children, from);
    PathSides(doc.children, to);
    SiblingsOfNode(doc.children, from);
    SiblingsOfNode(doc.children, to);
    RangeTokens(doc.children, 0, Parent(from), Last(from), Last(to), start, end);
  }

  // ----- the batch -----

  function FirstBad(doc: Doc, ops: seq<Op>): Option<EditError> {
    if ops == [] then None
    else if OpVerdict(doc, ops[0]).Some? then OpVerdict(doc, ops[0])
    else FirstBad(doc, ops[1..])
  }

  predicate SameAnchor(a: Op, b: Op) {
    a.Insert? && b.Insert? && a.path == b.path && a.position == b.position
  }

  predicate DuplicateAnchor(ops: seq<Op>) {
    exists i, j :: 0 <= i < j < |ops| && SameAnchor(ops[i], ops[j])
  }

  /** Some pair of operations clashes in the tree. */
  ghost predicate Clashing(doc: Doc, ops: seq<Op>)
    requires FirstBad(doc, ops) == None
  {
    exists i, j :: 0 <= i < j < |ops| && OpsClash(doc, ops, i, j)
  }

  ghost predicate OpsClash(doc: Doc, ops: seq<Op>, i: int, j: int)
    requires FirstBad(doc, ops) == None && 0 <= i < |ops| && 0 <= j < |ops|
  {
    AllGood(doc, ops);
    Clash(doc.children, Meaning(doc, ops[i]), Meaning(doc, ops[j]))
  }

  lemma {:induction false} AllGood(doc: Doc, ops: seq<Op>)
    requires FirstBad(doc, ops) == None
    ensures forall i :: 0 <= i < |ops| ==> OpVerdict(doc, ops[i]) == None
  {
    if ops != [] {
      AllGood(doc, ops[1..]);
      assert forall i :: 1 <= i < |ops| ==> ops[i] == ops[1..][i - 1];
    }
  }

  function ResolvedAll(doc: Doc, ops: seq<Op>): (rs: seq<ResolvedOp>)
    requires forall i :: 0 <= i < |ops| ==> OpVerdict(doc, ops[i]) == None
    ensures |rs| == |ops| && forall i :: 0 <= i < |ops| ==> rs[i] == Resolved(doc, ops[i])
  {
    seq(|ops|, i requires 0 <= i < |ops| => Resolved(doc, ops[i]))
  }

  function Meanings(doc: Doc, ops: seq<Op>): (es: seq<Edit>)
    requires forall i :: 0 <= i < |ops| ==> OpVerdict(doc, ops[i]) == None
    ensures |es| == |ops| && forall i :: 0 <= i < |ops| ==> es[i] == Meaning(doc, ops[i])
  {
    seq(|ops|, i requires 0 <= i < |ops| => Meaning(doc, ops[i]))
  }

  /** What the batch does, in terms of resolved positions. */
  ghost function Outcome(doc: Doc, ops: seq<Op>): Result<seq<Token>, EditError> {
    if ops == [] then Err(InvalidOps)
    else if FirstBad(doc, ops).Some? then Err(FirstBad(doc, ops).value)
    else
      AllGood(doc, ops);
      if DuplicateAnchor(ops) || !AllCompatible(ResolvedAll(doc, ops)) then Err(InvalidOps)
      else Ok(Simultaneous(FlattenAll(doc.children), ResolvedAll(doc, ops)))
  }

  /**
   * An accepted batch yields the flattening of one simultaneous edit of the original tree,
   * and a batch is refused exactly for a bad operation, a repeated anchor or a clash in the tree.
   */
  lemma BatchIsTreeEdit(doc: Doc, ops: seq<Op>)
    requires forall i :: 0 <= i < |ops| ==> OnBoundary(doc, ops[i])
    ensures Outcome(doc, ops).Ok? <==>
              ops != [] && FirstBad(doc, ops) == None && !DuplicateAnchor(ops) && !Clashing(doc, ops)
    ensures Outcome(doc, ops).Ok? ==>
              (AllGood(doc, ops); Outcome(doc, ops).value == FlattenAll(EditForest(doc.children, [], 0, Meanings(doc, ops))))
  {
    if ops != [] && FirstBad(doc, ops) == None {
      AllGood(doc, ops);
      MeaningsArePlaced(doc, ops);
      BatchClashes(doc, ops);
      TokenEditIsTreeEdit(doc.children, Meanings(doc, ops));
    }
  }

  lemma MeaningsArePlaced(doc: Doc, ops: seq<Op>)
    requires forall i :: 0 <= i < |ops| ==> OnBoundary(doc, ops[i]) && OpVerdict(doc, ops[i]) == None
    ensures ValidEdits(doc.children, Meanings(doc, ops))
    ensures PlacedAll(doc.children, Meanings(doc, ops)) == ResolvedAll(doc, ops)
  {
    hide FlattenAll, Placed, Meaning, Resolved, OpVerdict, OnBoundary, ValidEdit;
    var es := Meanings(doc, ops);
    forall i | 0 <= i < |es|
      ensures ValidEdit(doc.children, es[i]) && Placed(doc.children, es[i]) == Resolved(doc, ops[i])
    {
      MeaningIsPlaced(doc, ops[i]);
    }
    assert PlacedAll(doc.children, es) == ResolvedAll(doc, ops);
  }

  lemma PairClash(doc: Doc, ops: seq<Op>, i: nat, j: nat)
    requires FirstBad(doc, ops) == None && i < j < |ops|
    requires OpVerdict(doc, ops[i]) == None && OpVerdict(doc, ops[j]) == None
    requires OnBoundary(doc, ops[i]) && OnBoundary(doc, ops[j])
    ensures Compatible(Resolved(doc, ops[i]), Resolved(doc, ops[j])) <==> !OpsClash(doc, ops, i, j)
  {
    hide FlattenAll, Placed, Meaning, Resolved, OpVerdict, OnBoundary, ValidEdit, Clash, Compatible;
    MeaningIsPlaced(doc, ops[i]);
    MeaningIsPlaced(doc, ops[j]);
    OverlapIsClash(doc.children, Meaning(doc, ops[i]), Meaning(doc, ops[j]));
  }

  lemma BatchClashes(doc: Doc, ops: seq<Op>)
    requires forall i :: 0 <= i < |ops| ==> OnBoundary(doc, ops[i]) && OpVerdict(doc, ops[i]) == None
    requires FirstBad(doc, ops) == None
    ensures AllCompatible(ResolvedAll(doc, ops)) <==> !Clashing(doc, ops)
  {
    hide Resolved, OpVerdict, OnBoundary, Compatible, OpsClash;
    var rs := ResolvedAll(doc, ops);
    if AllCompatible(rs) {
      forall i, j | 0 <= i < j < |ops|
        ensures !OpsClash(doc, ops, i, j)
      {
        PairClash(doc, ops, i, j);
        assert Compatible(rs[i], rs[j]);
      }
    } else {
      var i, j :| 0 <= i < j < |rs| && !Compatible(rs[i], rs[j]);
      PairClash(doc, ops, i, j);
    }
  }

  /** Resolved positions lie in the document, and only inserts are empty. */
  lemma ResolvedInBounds(doc: Doc, op: Op)
    requires OpVerdict(doc, op) == None
    ensures InBounds(Resolved(doc, op), |FlattenAll(doc.children)|)
  {
    var ns := doc.children;
    if op.Insert? {
      if op.path != [] {
        AnchorTokens(doc, op.path);
      }
    } else {
      MeaningIsPlaced(doc, op);
      PlacedInBounds(ns, Meaning(doc, op));
    }
  }

  method ResolveRange(doc: Doc, from: Path, to: Path) returns (r: Result<(Node, nat, nat), EditError>)
    ensures r.Err? ==> RangeVerdict(doc, from, to, None) == Some(r.error)
    ensures r.Ok? ==> RangeVerdict(doc, from, to, None) == None &&
                      r.value == (NodeAt(doc.children, from), AnchorAt(doc, from).start, AnchorAt(doc, to).end)
  {
    if from == [] || to == [] {
      return Err(InvalidOps);
    }
    if from[..|from| - 1] != to[..|to| - 1] {
      return Err(InvalidOps);
    }
    if from[|from| - 1] > to[|to| - 1] {
      return Err(InvalidOps);
    }
    var fromRes := ResolveBlockPath(doc, from);
    if fromRes.Err? {
      return Err(fromRes.error);
    }
    var toRes := ResolveBlockPath(doc, to);
    if toRes.Err? {
      return Err(toRes.error);
    }
    r := Ok((fromRes.value.node, fromRes.value.start, toRes.value.end));
  }

  method ResolveOp(doc: Doc, op: Op) returns (r: Result<ResolvedOp, EditError>)
    ensures r.Err? ==> OpVerdict(doc, op) == Some(r.error)
    ensures r.Ok? ==> OpVerdict(doc, op) == None && r.value == Resolved(doc, op)
  {
    match op
    case Insert(path, position, want, content) =>
      var node, pos;
      if path == [] {
        if position != InsideStart && position != InsideEnd {
          return Err(AnchorNotFound);
        }
        node := doc;
        pos := if position == InsideStart then 0 else ContentSize(doc.children);
      } else {
        var anchor := ResolveBlockPath(doc, path);
        if anchor.Err? {
          return Err(anchor.error);
        }
        node := anchor.value.node;
        pos := InsertionPos(anchor.value, position);
      }
      if Mismatch(node, want) {
        return Err(AnchorMismatch);
      }
      if content == [] {
        return Err(InvalidOps);
      }
      r := Ok(ResolvedOp(true, pos, pos, content));
    case Replace(from, to, want, content) =>
      var range := ResolveRange(doc, from, to);
      if range.Err? {
        return Err(range.error);
      }
      if Mismatch(range.value.0, want) {
        return Err(AnchorMismatch);
      }
      if content == [] {
        return Err(InvalidOps);
      }
      r := Ok(ResolvedOp(false, range.value.1, range.value.2, content));
    case Delete(from, to, want) =>
      var range := ResolveRange(doc, from, to);
      if range.Err? {
        return Err(range.error);
      }
      if Mismatch(range.value.0, want) {
        return Err(AnchorMismatch);
      }
      r := Ok(ResolvedOp(false, range.value.1, range.value.2, []));
  }

  /** Overlapping ranges, or an insert strictly inside a range. */
  method DetectOverlaps(rs: seq<ResolvedOp>) returns (overlap: bool)
    ensures overlap <==> !AllCompatible(rs)
  {
    var i := 0;
    while i < |rs|
      invariant 0 <= i <= |rs|
      invariant forall p, q :: 0 <= p < i && p < q < |rs| ==> Compatible(rs[p], rs[q])
    {
      var j := i + 1;
      while j < |rs|
        invariant i < j <= |rs|
        invariant forall q :: i < q < j ==> Compatible(rs[i], rs[q])
      {
        var a, b := rs[i], rs[j];
        if !a.isInsert && !b.isInsert {
          if a.from < b.to && b.from < a.to {
            assert !Compatible(rs[i], rs[j]);
            return true;
          }
        } else if a.isInsert && !b.isInsert {
          if a.from > b.from && a.from < b.to {
            assert !Compatible(rs[i], rs[j]);
            return true;
          }
        } else if !a.isInsert && b.isInsert {
          if b.from > a.from && b.from < a.to {
            assert !Compatible(rs[i], rs[j]);
            return true;
          }
        }
        j := j + 1;
      }
      i := i + 1;
    }
    return false;
  }

  /** Resolve every anchor against the original document; the first error wins. */
  method ResolveOps(doc: Doc, ops: seq<Op>) returns (r: Result<seq<ResolvedOp>, EditError>)
    ensures r.Err? ==> FirstBad(doc, ops) == Some(r.error)
    ensures r.Ok? ==> FirstBad(doc, ops) == None && (AllGood(doc, ops); r.value == ResolvedAll(doc, ops))
  {
    hide OpVerdict, Resolved;
    var resolved: seq<ResolvedOp> := [];
    var i := 0;
    while i < |ops|
      invariant 0 <= i <= |ops| && |resolved| == i
      invariant forall k :: 0 <= k < i ==> OpVerdict(doc, ops[k]) == None && resolved[k] == Resolved(doc, ops[k])
      invariant FirstBad(doc, ops) == FirstBad(doc, ops[i..])
    {
      assert ops[i..][0] == ops[i] && ops[i..][1..] == ops[i + 1..];
      var one := ResolveOp(doc, ops[i]);
      if one.Err? {
        return Err(one.error);
      }
      resolved := resolved + [one.value];
      i := i + 1;
    }
    r := Ok(resolved);
  }

  /** Two inserts at one `(path, position)` are refused. */
  method HasDuplicateAnchor(ops: seq<Op>) returns (dup: bool)
    ensures dup <==> DuplicateAnchor(ops)
  {
    var insertKeys: set<(Path, InsertPosition)> := {};
    var i := 0;
    while i < |ops|
      invariant 0 <= i <= |ops|
      invariant forall k :: 0 <= k < i && ops[k].Insert? ==> (ops[k].path, ops[k].position) in insertKeys
      invariant forall key :: key in insertKeys ==> exists k :: 0 <= k < i && ops[k].Insert? && (ops[k].path, ops[k].position) == key
      invariant forall p, q :: 0 <= p < q < i ==> !SameAnchor(ops[p], ops[q])
    {
      if ops[i].Insert? {
        var key := (ops[i].path, ops[i].position);
        if key in insertKeys {
          ghost var k :| 0 <= k < i && ops[k].Insert? && (ops[k].path, ops[k].position) == key;
          assert SameAnchor(ops[k], ops[i]);
          return true;
        }
        insertKeys := insertKeys + {key};
      }
      i := i + 1;
    }
    return false;
  }

  /** Run the sorted splices on the original tokens, one after the other. */
  method RunTransform(original: seq<Token>, rs: seq<ResolvedOp>) returns (tokens: seq<Token>)
    requires AllCompatible(rs)
    requires forall k :: 0 <= k < |rs| ==> InBounds(rs[k], |original|)
    ensures tokens == Simultaneous(original, rs)
  {
    hide FlattenAll, Simultaneous, StableSort, InBounds, Compatible;
    var sorted := StableSort(rs);
    SplicesAreSimultaneous(original, rs);
    tokens := original;
    ghost var n: nat := |tokens|;
    var i := 0;
    assert sorted[0..] == sorted;
    while i < |sorted|
      invariant 0 <= i <= |sorted| && n <= |tokens|
      invariant Descends(sorted[i..], n)
      invariant RunSplices(tokens, sorted[i..], n) == RunSplices(original, sorted, |original|)
    {
      var r := sorted[i];
      assert sorted[i..][0] == r && sorted[i..][1..] == sorted[i + 1..];
      assert r.from <= r.to <= n by {
        DescendsBound(sorted[i..], n);
        BoundsOf(r, n);
      }
      tokens := tokens[..r.from] + FlattenAll(r.nodes) + tokens[r.to..];
      n := r.from;
      i := i + 1;
    }
  }

  lemma BoundsOf(r: ResolvedOp, n: nat)
    requires InBounds(r, n)
    ensures r.from <= r.to <= n
  {
  }

  /**
   * Apply the batch. The first error wins; otherwise the splices, run rightmost first,
   * compute the flattening of the simultaneous tree edit.
   */
  method ApplyIncrementalOps(doc: Doc, ops: seq<Op>) returns (r: Result<seq<Token>, EditError>)
    ensures r == Outcome(doc, ops)
    ensures (forall i :: 0 <= i < |ops| ==> OnBoundary(doc, ops[i])) && r.Ok? ==>
              && FirstBad(doc, ops) == None
              && (AllGood(doc, ops); r.value == FlattenAll(EditForest(doc.children, [], 0, Meanings(doc, ops))))
  {
    hide OpVerdict, Resolved, Compatible, FlattenAll, EditForest, OnBoundary, Simultaneous;
    if ops == [] {
      return Err(InvalidOps);
    }
    var resolved := ResolveOps(doc, ops);
    if resolved.Err? {
      return Err(resolved.error);
    }
    AllGood(doc, ops);
    var rs := resolved.value;
    var duplicate := HasDuplicateAnchor(ops);
    if duplicate {
      return Err(InvalidOps);
    }
    var overlap := DetectOverlaps(rs);
    if overlap {
      return Err(InvalidOps);
    }
    forall k | 0 <= k < |rs|
      ensures InBounds(rs[k], |FlattenAll(doc.children)|)
    {
      ResolvedInBounds(doc, ops[k]);
    }
    var tokens := RunTransform(FlattenAll(doc.children), rs);
    if forall k :: 0 <= k < |ops| ==> OnBoundary(doc, ops[k]) {
      BatchIsTreeEdit(doc, ops);
    }
    r := Ok(tokens);
  }

  // ----- where the tree reading stops -----

  /** On a leaf the two inside anchors are exchanged: `inside_start` lands after it. */
  lemma InsideOfLeafIsBeside(doc: Doc, path: Path)
    requires ValidPath(doc.children, path) && NodeAt(doc.children, path).Leaf?
    ensures InsertionPos(AnchorAt(doc, path), InsideStart) == AnchorAt(doc, path).end
    ensures InsertionPos(AnchorAt(doc, path), InsideEnd) == AnchorAt(doc, path).start
  {
    StartIsLeftSide(doc.children, 0, path);
  }

  /**
   * `OnBoundary` is exact: an accepted insert that violates it resolves to a position that is
   * not a boundary of the tree at all.
   */
  lemma OffBoundary(doc: Doc, op: Op, b: Boundary)
    requires OpVerdict(doc, op) == None && !OnBoundary(doc, op)
    requires ValidBoundary(doc.children, b)
    ensures Position(doc.children, 0, b) != Resolved(doc, op).from
  {
    LandsInText(doc, op);
    hide *;
    NoBoundaryInText(doc.children, op.path, b, Resolved(doc, op).from);
  }

  lemma LandsInText(doc: Doc, op: Op)
    requires OpVerdict(doc, op) == None && !OnBoundary(doc, op)
    ensures WellFormedAll(doc.children) && ValidPath(doc.children, op.path) && NodeAt(doc.children, op.path).Text?
    ensures var start := StartBelow(doc.children, 0, op.path);
            start < Resolved(doc, op).from < start + NodeSize(NodeAt(doc.children, op.path))
  {
    hide FlattenAll, StartBelow, Position;
    StartIsLeftSide(doc.children, 0, op.path);
  }

  lemma NoBoundaryInText(ns: seq<Node>, path: Path, b: Boundary, pos: nat)
    requires WellFormedAll(ns) && ValidPath(ns, path) && ValidBoundary(ns, b) && NodeAt(ns, path).Text?
    requires StartBelow(ns, 0, path) < pos < StartBelow(ns, 0, path) + NodeSize(NodeAt(ns, path))
    ensures Position(ns, 0, b) != pos
  {
    var parent, k := Parent(path), Last(path);
    assert Before(path) == Boundary(parent, k) && After(path) == Boundary(parent, k + 1);
    hide *;
    StartIsLeftSide(ns, 0, path);
    PositionOrder(ns, 0, Before(path), b);
    PositionOrder(ns, 0, b, After(path));
    StrictlyBetween(parent, k, k, b);
    NothingInsideText(ns, path, b);
  }

  lemma NothingInsideText(ns: seq<Node>, path: Path, b: Boundary)
    requires ValidPath(ns, path) && ValidBoundary(ns, b) && NodeAt(ns, path).Text?
    ensures !PutInside(b, Swap(Parent(path), Last(path), Last(path), []))
  {
    var parent, k := Parent(path), Last(path);
    SiblingsOfNode(ns, path);
    hide ValidPath, ValidBoundary, NodeAt, Siblings, Parent, Last;
    if PutInside(b, Swap(parent, k, k, [])) {
      assert b.parent[..|parent| + 1] == b.parent[..|parent|] + [b.parent[|parent|]];
      BelowMeansBranch(ns, parent, k, b);
    }
  }
}
