/**
 * The meaning of an edit batch: one simultaneous edit of the document tree, and the proof
 * that the token edit of the editor computes exactly its flattening.
 */
module TreeEdit {
  import opened Prelude
  import opened SeqFacts
  import opened DocTree
  import opened DocPaths
  import opened TokenEdit

  /** Put nodes at a boundary, or swap the siblings `lo..hi` of `parent` for other nodes. */
  datatype Edit =
    | Put(at: Boundary, nodes: seq<Node>)
    | Swap(parent: Path, lo: int, hi: int, nodes: seq<Node>)

  predicate ValidEdit(doc: seq<Node>, e: Edit) {
    match e
    case Put(at, _) => ValidBoundary(doc, at)
    case Swap(parent, lo, hi, _) => lo <= hi && ValidPath(doc, parent + [lo]) && ValidPath(doc, parent + [hi])
  }

  predicate ValidEdits(doc: seq<Node>, es: seq<Edit>) {
    forall i :: 0 <= i < |es| ==> ValidEdit(doc, es[i])
  }

  // ----- the simultaneous edit of the tree -----

  /** Later operations come first. */
  function PutsAt(es: seq<Edit>, b: Boundary): seq<Node> {
    if es == [] then []
    else PutsAt(es[1..], b) + (if es[0].Put? && es[0].at == b then es[0].nodes else [])
  }

  function SwapAt(es: seq<Edit>, b: Boundary): (s: Option<Edit>)
    ensures s.Some? ==> s.value in es && s.value.Swap? && Boundary(s.value.parent, s.value.lo) == b
  {
    if es == [] then None
    else if es[0].Swap? && es[0].parent == b.parent && es[0].lo == b.idx then Some(es[0])
    else SwapAt(es[1..], b)
  }

  /**
   * Rebuild the children `i..` of the node at `parent`: what is put on the boundary, then the
   * replacement of the swapped run that starts there, or the edited child.
   */
  function EditForest(ns: seq<Node>, parent: Path, i: nat, es: seq<Edit>): seq<Node>
    requires i <= |ns|
    decreases ns, |ns| - i
  {
    PutsAt(es, Boundary(parent, i)) +
    if i == |ns| then []
    else
      match SwapAt(es, Boundary(parent, i))
      case Some(s) => s.nodes + EditForest(ns, parent, if i <= s.hi < |ns| then s.hi + 1 else i + 1, es)
      case None => [EditNode(ns[i], parent + [i], es)] + EditForest(ns, parent, i + 1, es)
  }

  function EditNode(n: Node, path: Path, es: seq<Edit>): Node
    decreases n, 0
  {
    if n.Branch? then Branch(n.kind, EditForest(n.children, path, 0, es)) else n
  }

  /** A node that the swap removes: one of the run or something below it. */
  predicate Covers(s: Edit, path: Path) {
    && s.Swap?
    && |s.parent| < |path|
    && path[..|s.parent|] == s.parent
    && s.lo <= path[|s.parent|] <= s.hi
  }

  /** Two edits that cannot both apply to one tree. */
  ghost predicate Clash(doc: seq<Node>, a: Edit, b: Edit) {
    match (a, b)
    case (Swap(_, _, _, _), Swap(_, _, _, _)) => exists path :: ValidPath(doc, path) && Covers(a, path) && Covers(b, path)
    case (Put(at, _), Swap(_, _, _, _)) => PutInside(at, b)
    case (Swap(_, _, _, _), Put(at, _)) => PutInside(at, a)
    case (Put(_, _), Put(_, _)) => false
  }

  /** The boundary lies strictly between two removed siblings or somewhere below one of them. */
  predicate PutInside(at: Boundary, s: Edit) {
    && s.Swap?
    && ((at.parent == s.parent && s.lo < at.idx <= s.hi) || Covers(s, at.parent))
  }

  // ----- from tree edits to token positions -----

  lemma SwapSides(doc: seq<Node>, e: Edit)
    requires e.Swap? && ValidEdit(doc, e)
    ensures ValidBoundary(doc, Boundary(e.parent, e.lo)) && ValidBoundary(doc, Boundary(e.parent, e.hi + 1))
  {
    PathSides(doc, e.parent + [e.lo]);
    PathSides(doc, e.parent + [e.hi]);
    assert Parent(e.parent + [e.lo]) == e.parent == Parent(e.parent + [e.hi]);
  }

  function Placed(doc: seq<Node>, e: Edit): ResolvedOp
    requires ValidEdit(doc, e)
  {
    match e
    case Put(at, nodes) => ResolvedOp(true, Position(doc, 0, at), Position(doc, 0, at), nodes)
    case Swap(parent, lo, hi, nodes) =>
      SwapSides(doc, e);
      ResolvedOp(false, Position(doc, 0, Boundary(parent, lo)), Position(doc, 0, Boundary(parent, hi + 1)), nodes)
  }

  function PlacedAll(doc: seq<Node>, es: seq<Edit>): (rs: seq<ResolvedOp>)
    requires ValidEdits(doc, es)
    ensures |rs| == |es| && forall i :: 0 <= i < |es| ==> rs[i] == Placed(doc, es[i])
  {
    seq(|es|, i requires 0 <= i < |es| => Placed(doc, es[i]))
  }

  lemma PlacedInBounds(doc: seq<Node>, e: Edit)
    requires WellFormedAll(doc) && ValidEdit(doc, e)
    ensures InBounds(Placed(doc, e), |FlattenAll(doc)|)
  {
    match e
    case Put(at, _) =>
      PositionBounds(doc, 0, at);
    case Swap(parent, lo, hi, _) =>
      SwapSides(doc, e);
      PositionBounds(doc, 0, Boundary(parent, hi + 1));
      RunOrder(parent, lo, hi + 1);
      PositionOrder(doc, 0, Boundary(parent, lo), Boundary(parent, hi + 1));
  }

  lemma {:induction false} RunOrder(parent: Path, i: int, j: int)
    requires i < j
    ensures Precedes(Boundary(parent, i), Boundary(parent, j))
    decreases |parent|
  {
    if parent != [] {
      RunOrder(parent[1..], i, j);
    }
  }

  // ----- clashing in the tree is overlapping in the tokens -----

  /** A boundary lies strictly between the sides of a run exactly when it is inside the run. */
  lemma {:induction false} StrictlyBetween(parent: Path, lo: int, hi: int, b: Boundary)
    requires lo <= hi
    ensures Precedes(Boundary(parent, lo), b) && Precedes(b, Boundary(parent, hi + 1))
       <==> PutInside(b, Swap(parent, lo, hi, []))
    decreases |parent|
  {
    var s := Swap(parent, lo, hi, []);
    if parent == [] {
      assert b.parent != [] ==> b.parent[..0] == [];
    } else if b.parent == [] {
    } else if parent[0] == b.parent[0] {
      StrictlyBetween(parent[1..], lo, hi, Boundary(b.parent[1..], b.idx));
      var t := Swap(parent[1..], lo, hi, []);
      assert parent == [parent[0]] + parent[1..];
      assert b.parent == [b.parent[0]] + b.parent[1..];
      if |parent| < |b.parent| {
        assert b.parent[..|parent|] == [b.parent[0]] + b.parent[1..][..|parent[1..]|];
      }
      assert Covers(s, b.parent) <==> Covers(t, b.parent[1..]);
    } else {
      assert |parent| < |b.parent| ==> b.parent[..|parent|][0] != parent[0];
    }
  }

  /** Two runs share a node: the same list and meeting intervals, or one below the other. */
  predicate RunsMeet(a: Edit, b: Edit)
    requires a.Swap? && b.Swap?
  {
    || (a.parent == b.parent && a.lo <= b.hi && b.lo <= a.hi)
    || Covers(a, b.parent)
    || Covers(b, a.parent)
  }

  lemma CoversBelow(p: Path, lo: int, hi: int, q: Path)
    requires p != [] && q != [] && p[0] == q[0]
    ensures Covers(Swap(p, lo, hi, []), q) <==> Covers(Swap(p[1..], lo, hi, []), q[1..])
  {
    if |p| < |q| {
      assert q[..|p|] == [q[0]] + q[1..][..|p[1..]|] && p == [p[0]] + p[1..];
      assert q[..|p|][1..] == q[1..][..|p[1..]|];
    }
  }

  lemma {:induction false} RunsMeetOrder(p: Path, lo: int, hi: int, q: Path, lo': int, hi': int)
    requires lo <= hi && lo' <= hi'
    ensures Precedes(Boundary(p, lo), Boundary(q, hi' + 1)) && Precedes(Boundary(q, lo'), Boundary(p, hi + 1))
       <==> RunsMeet(Swap(p, lo, hi, []), Swap(q, lo', hi', []))
    decreases |p|
  {
    var a, b := Swap(p, lo, hi, []), Swap(q, lo', hi', []);
    if p != [] && q != [] && p[0] == q[0] {
      RunsMeetOrder(p[1..], lo, hi, q[1..], lo', hi');
      CoversBelow(p, lo, hi, q);
      CoversBelow(q, lo', hi', p);
      assert p == [p[0]] + p[1..] && q == [q[0]] + q[1..];
      hide Covers;
    } else if p != [] && q != [] {
      assert |p| < |q| ==> q[..|p|][0] != p[0];
      assert |q| < |p| ==> p[..|q|][0] != q[0];
    } else {
      assert p != [] ==> p[..0] == [];
      assert q != [] ==> q[..0] == [];
    }
  }

  lemma RunsMeetShare(doc: seq<Node>, a: Edit, b: Edit)
    requires a.Swap? && b.Swap? && ValidEdit(doc, a) && ValidEdit(doc, b)
    ensures RunsMeet(a, b) <==> Clash(doc, a, b)
  {
    if RunsMeet(a, b) {
      if a.parent == b.parent {
        var k := if a.lo <= b.lo then b.lo else a.lo;
        var path := a.parent + [k];
        assert path[..|a.parent|] == a.parent;
        assert ValidPath(doc, path) && Covers(a, path) && Covers(b, path);
      } else if Covers(a, b.parent) {
        CoverWitness(doc, a, b);
      } else {
        CoverWitness(doc, b, a);
      }
    }
    if path :| ValidPath(doc, path) && Covers(a, path) && Covers(b, path) {
      if |a.parent| < |b.parent| {
        assert b.parent[..|a.parent|] == path[..|a.parent|];
        assert b.parent[|a.parent|] == path[|a.parent|];
      } else if |b.parent| < |a.parent| {
        assert a.parent[..|b.parent|] == path[..|b.parent|];
        assert a.parent[|b.parent|] == path[|b.parent|];
      }
    }
  }

  lemma CoverWitness(doc: seq<Node>, a: Edit, b: Edit)
    requires a.Swap? && b.Swap? && ValidEdit(doc, b) && Covers(a, b.parent)
    ensures Clash(doc, a, b)
  {
    var path := b.parent + [b.lo];
    assert path[..|b.parent|] == b.parent;
    assert path[..|a.parent|] == b.parent[..|a.parent|];
    assert ValidPath(doc, path) && Covers(a, path) && Covers(b, path);
  }

  /** `detectOverlaps` rejects a pair of positions exactly when the two edits clash in the tree. */
  lemma OverlapIsClash(doc: seq<Node>, a: Edit, b: Edit)
    requires WellFormedAll(doc) && ValidEdit(doc, a) && ValidEdit(doc, b)
    ensures Compatible(Placed(doc, a), Placed(doc, b)) <==> !Clash(doc, a, b)
  {
    hide Position, ValidBoundary, Precedes, RunsMeet, Covers;
    if a.Swap? && b.Swap? {
      SwapOverlap(doc, a, b);
    } else if a.Put? && b.Swap? {
      PutOverlap(doc, a, b);
    } else if a.Swap? && b.Put? {
      PutOverlap(doc, b, a);
    }
  }

  lemma SwapOverlap(doc: seq<Node>, a: Edit, b: Edit)
    requires a.Swap? && b.Swap? && WellFormedAll(doc) && ValidEdit(doc, a) && ValidEdit(doc, b)
    ensures Compatible(Placed(doc, a), Placed(doc, b)) <==> !Clash(doc, a, b)
  {
    hide *;
    SwapSides(doc, a);
    SwapSides(doc, b);
    SwapOrdered(doc, a);
    SwapOrdered(doc, b);
    SwapsPlaced(doc, a, b);
    SameRuns(a, b);
    RunsMeetOrder(a.parent, a.lo, a.hi, b.parent, b.lo, b.hi);
    PositionOrder(doc, 0, Boundary(a.parent, a.lo), Boundary(b.parent, b.hi + 1));
    PositionOrder(doc, 0, Boundary(b.parent, b.lo), Boundary(a.parent, a.hi + 1));
    RunsMeetShare(doc, a, b);
  }

  lemma SwapOrdered(doc: seq<Node>, e: Edit)
    requires e.Swap? && ValidEdit(doc, e)
    ensures e.lo <= e.hi
  {
    hide ValidPath;
  }

  lemma SwapsPlaced(doc: seq<Node>, a: Edit, b: Edit)
    requires a.Swap? && b.Swap? && ValidEdit(doc, a) && ValidEdit(doc, b)
    requires ValidBoundary(doc, Boundary(a.parent, a.lo)) && ValidBoundary(doc, Boundary(a.parent, a.hi + 1))
    requires ValidBoundary(doc, Boundary(b.parent, b.lo)) && ValidBoundary(doc, Boundary(b.parent, b.hi + 1))
    ensures Compatible(Placed(doc, a), Placed(doc, b)) <==>
            !(Position(doc, 0, Boundary(a.parent, a.lo)) < Position(doc, 0, Boundary(b.parent, b.hi + 1))
              && Position(doc, 0, Boundary(b.parent, b.lo)) < Position(doc, 0, Boundary(a.parent, a.hi + 1)))
  {
    hide Position, ValidBoundary;
  }

  lemma SameRuns(a: Edit, b: Edit)
    requires a.Swap? && b.Swap?
    ensures RunsMeet(a, b) <==> RunsMeet(Swap(a.parent, a.lo, a.hi, []), Swap(b.parent, b.lo, b.hi, []))
  {
  }

  lemma PutOverlap(doc: seq<Node>, p: Edit, s: Edit)
    requires p.Put? && s.Swap? && WellFormedAll(doc) && ValidEdit(doc, p) && ValidEdit(doc, s)
    ensures Compatible(Placed(doc, p), Placed(doc, s)) <==> !PutInside(p.at, s)
  {
    var first, last := Boundary(s.parent, s.lo), Boundary(s.parent, s.hi + 1);
    SwapSides(doc, s);
    PutPlaced(doc, p, s);
    assert s.lo <= s.hi && (PutInside(p.at, s) <==> PutInside(p.at, Swap(s.parent, s.lo, s.hi, [])));
    hide *;
    StrictlyBetween(s.parent, s.lo, s.hi, p.at);
    PositionOrder(doc, 0, first, p.at);
    PositionOrder(doc, 0, p.at, last);
  }

  lemma PutPlaced(doc: seq<Node>, p: Edit, s: Edit)
    requires p.Put? && s.Swap? && ValidEdit(doc, p) && ValidEdit(doc, s)
    requires ValidBoundary(doc, Boundary(s.parent, s.lo)) && ValidBoundary(doc, Boundary(s.parent, s.hi + 1))
    ensures ValidBoundary(doc, p.at)
    ensures Compatible(Placed(doc, p), Placed(doc, s)) <==>
            !(Position(doc, 0, Boundary(s.parent, s.lo)) < Position(doc, 0, p.at) < Position(doc, 0, Boundary(s.parent, s.hi + 1)))
  {
    hide Position, ValidBoundary;
  }

  // ----- the token edit is the flattening of the tree edit -----

  lemma PlacedTail(doc: seq<Node>, es: seq<Edit>)
    requires ValidEdits(doc, es) && es != []
    ensures PlacedAll(doc, es)[0] == Placed(doc, es[0])
    ensures ValidEdits(doc, es[1..]) && PlacedAll(doc, es)[1..] == PlacedAll(doc, es[1..])
  {
  }

  lemma {:induction false} PutsAreInserted(doc: seq<Node>, es: seq<Edit>, b: Boundary)
    requires WellFormedAll(doc) && ValidEdits(doc, es) && ValidBoundary(doc, b)
    ensures InsertedAt(PlacedAll(doc, es), Position(doc, 0, b)) == FlattenAll(PutsAt(es, b))
  {
    if es != [] {
      hide FlattenAll, Position, ValidBoundary;
      PlacedTail(doc, es);
      PutsAreInserted(doc, es[1..], b);
      var e := es[0];
      if e.Put? {
        PositionOrder(doc, 0, e.at, b);
        FlattenAppend(PutsAt(es[1..], b), e.nodes);
      }
      assert PutsAt(es[1..], b) + [] == PutsAt(es[1..], b);
    }
  }

  /** The range at the position of a boundary is the swap that starts at that boundary. */
  lemma {:induction false} SwapsAreRanges(doc: seq<Node>, es: seq<Edit>, b: Boundary)
    requires WellFormedAll(doc) && ValidEdits(doc, es) && ValidBoundary(doc, b)
    ensures match SwapAt(es, b)
            case Some(s) => ValidEdit(doc, s) && RangeAt(PlacedAll(doc, es), Position(doc, 0, b)) == Some(Placed(doc, s))
            case None => RangeAt(PlacedAll(doc, es), Position(doc, 0, b)) == None
  {
    if es != [] {
      hide FlattenAll, Position, ValidBoundary;
      PlacedTail(doc, es);
      SwapsAreRanges(doc, es[1..], b);
      var e := es[0];
      if e.Swap? {
        SwapSides(doc, e);
        PositionOrder(doc, 0, Boundary(e.parent, e.lo), b);
      }
    }
  }

  /** `ns` are the children of the node at `parent`, and their content starts at `base`. */
  ghost predicate Located(doc: seq<Node>, parent: Path, ns: seq<Node>, base: nat) {
    && WellFormedAll(ns)
    && HoldsTokens(FlattenAll(doc), base, FlattenAll(ns))
    && BoundariesAre(doc, parent, ns, base)
  }

  predicate HoldsTokens(all: seq<Token>, base: nat, part: seq<Token>) {
    base + |part| <= |all| && all[base..base + |part|] == part
  }

  ghost predicate BoundariesAre(doc: seq<Node>, parent: Path, ns: seq<Node>, base: nat) {
    forall i :: 0 <= i <= |ns| ==> BoundaryIs(doc, parent, ns, base, i)
  }

  ghost predicate BoundaryIs(doc: seq<Node>, parent: Path, ns: seq<Node>, base: nat, i: int)
    requires 0 <= i <= |ns|
  {
    ValidBoundary(doc, Boundary(parent, i)) && Position(doc, 0, Boundary(parent, i)) == base + Offset(ns, i)
  }

  /** What `Located` says, one fact at a time. */
  lemma LocatedAt(doc: seq<Node>, parent: Path, ns: seq<Node>, base: nat, i: nat)
    requires Located(doc, parent, ns, base) && i <= |ns|
    ensures ValidBoundary(doc, Boundary(parent, i)) && Position(doc, 0, Boundary(parent, i)) == base + Offset(ns, i)
    ensures WellFormedAll(ns) && base + |FlattenAll(ns)| <= |FlattenAll(doc)|
    ensures Offset(ns, |ns|) == |FlattenAll(ns)|
  {
    SiblingTokens(ns, 0, |ns|);
    hide FlattenAll, Position, ValidBoundary, WellFormedAll, Offset;
    assert BoundaryIs(doc, parent, ns, base, i);
  }

  lemma LocatedRoot(doc: seq<Node>)
    requires WellFormedAll(doc)
    ensures Located(doc, [], doc, 0)
  {
    assert FlattenAll(doc)[0..|FlattenAll(doc)|] == FlattenAll(doc);
    forall i | 0 <= i <= |doc|
      ensures BoundaryIs(doc, [], doc, 0, i)
    {
    }
  }

  /** One step down: the children of child `k` are located one past its open token. */
  lemma {:induction false} BoundaryBelow(ns: seq<Node>, base: nat, parent: Path, sib: seq<Node>, k: int, j: nat)
    requires ValidBoundary(ns, Boundary(parent, k)) && Siblings(ns, parent) == sib
    requires 0 <= k < |sib| && sib[k].Branch? && j <= |sib[k].children|
    ensures ValidBoundary(ns, Boundary(parent + [k], j))
    ensures Position(ns, base, Boundary(parent + [k], j)) == Position(ns, base, Boundary(parent, k)) + 1 + Offset(sib[k].children, j)
    decreases |parent|
  {
    hide FlattenAll, NodeSize, ContentSize, Offset;
    if parent == [] {
      assert ([] + [k])[1..] == [] && ([] + [k])[0] == k;
    } else {
      var down := ns[parent[0]].children;
      BoundaryBelow(down, base + Offset(ns, parent[0]) + 1, parent[1..], sib, k, j);
      assert (parent + [k])[1..] == parent[1..] + [k];
    }
  }

  lemma LocatedBelow(doc: seq<Node>, parent: Path, ns: seq<Node>, base: nat, k: nat, kids: seq<Node>, inner: nat)
    requires Located(doc, parent, ns, base) && Siblings(doc, parent) == ns
    requires k < |ns| && ns[k].Branch? && kids == ns[k].children && inner == base + Offset(ns, k) + 1
    ensures Located(doc, parent + [k], kids, inner)
    ensures Siblings(doc, parent + [k]) == kids
  {
    hide *;
    LocatedParts(doc, parent, ns, base);
    KidsWellFormed(ns, k);
    SiblingsBelow(doc, parent, k);
    HoldsKids(ns, k, Offset(ns, k) + 1, kids);
    HoldsInner(FlattenAll(doc), base, FlattenAll(ns), Offset(ns, k) + 1, FlattenAll(kids));
    BoundariesBelow(doc, parent, ns, base, k, kids, inner);
    assert Kids(ns[k]) == kids by {
      KidsOfBranch(ns[k]);
    }
    MakeLocated(doc, parent + [k], kids, inner);
  }

  lemma LocatedParts(doc: seq<Node>, parent: Path, ns: seq<Node>, base: nat)
    requires Located(doc, parent, ns, base)
    ensures WellFormedAll(ns) && HoldsTokens(FlattenAll(doc), base, FlattenAll(ns)) && BoundariesAre(doc, parent, ns, base)
  {
  }

  lemma KidsWellFormed(ns: seq<Node>, k: nat)
    requires WellFormedAll(ns) && k < |ns| && ns[k].Branch?
    ensures WellFormedAll(ns[k].children)
  {
    assert WellFormed(ns[k]);
  }

  lemma KidsOfBranch(n: Node)
    requires n.Branch?
    ensures Kids(n) == n.children
  {
  }

  lemma MakeLocated(doc: seq<Node>, parent: Path, ns: seq<Node>, base: nat)
    requires WellFormedAll(ns) && HoldsTokens(FlattenAll(doc), base, FlattenAll(ns)) && BoundariesAre(doc, parent, ns, base)
    ensures Located(doc, parent, ns, base)
  {
  }

  lemma HoldsKids(ns: seq<Node>, k: nat, at: nat, kids: seq<Node>)
    requires k < |ns| && ns[k].Branch? && kids == ns[k].children && at == Offset(ns, k) + 1
    ensures HoldsTokens(FlattenAll(ns), at, FlattenAll(kids))
  {
    InnerTokens(ns, k, at, kids);
  }

  lemma HoldsSlice(all: seq<Token>, base: nat, part: seq<Token>, i: nat, j: nat)
    requires HoldsTokens(all, base, part) && i <= j <= |part|
    ensures base + j <= |all| && all[base + i..base + j] == part[i..j]
  {
    SubSlice(all, base, part, i, j);
  }

  lemma HoldsInner(all: seq<Token>, base: nat, part: seq<Token>, at: nat, inner: seq<Token>)
    requires HoldsTokens(all, base, part) && HoldsTokens(part, at, inner)
    ensures HoldsTokens(all, base + at, inner)
  {
    SubSlice(all, base, part, at, at + |inner|);
  }

  lemma BoundariesBelow(doc: seq<Node>, parent: Path, ns: seq<Node>, base: nat, k: nat, kids: seq<Node>, inner: nat)
    requires BoundariesAre(doc, parent, ns, base) && Siblings(doc, parent) == ns
    requires k < |ns| && ns[k].Branch? && kids == ns[k].children && inner == base + Offset(ns, k) + 1
    ensures BoundariesAre(doc, parent + [k], kids, inner)
  {
    hide Position, ValidBoundary, Siblings, Offset;
    assert BoundaryIs(doc, parent, ns, base, k);
    forall j | 0 <= j <= |kids|
      ensures BoundaryIs(doc, parent + [k], kids, inner, j)
    {
      BoundaryBelow(doc, 0, parent, ns, k, j);
    }
  }

  lemma {:induction false} SiblingsBelow(ns: seq<Node>, parent: Path, k: int)
    requires 0 <= k < |Siblings(ns, parent)|
    ensures Siblings(ns, parent + [k]) == Kids(Siblings(ns, parent)[k])
    decreases |parent|
  {
    if parent == [] {
      assert ([] + [k])[1..] == [] && ([] + [k])[0] == k;
    } else {
      SiblingsBelow(Kids(ns[parent[0]]), parent[1..], k);
      assert (parent + [k])[1..] == parent[1..] + [k];
    }
  }

  /** The tokens of child `k` occupy `x..y`. */
  ghost predicate Spans(doc: seq<Node>, parent: Path, ns: seq<Node>, base: nat, k: nat, x: nat, y: nat) {
    && Located(doc, parent, ns, base)
    && k < |ns|
    && x == base + Offset(ns, k)
    && y == base + Offset(ns, k + 1)
  }

  lemma SpansParts(doc: seq<Node>, parent: Path, ns: seq<Node>, base: nat, k: nat, x: nat, y: nat)
    requires Spans(doc, parent, ns, base, k, x, y)
    ensures Located(doc, parent, ns, base) && WellFormedAll(ns)
    ensures k < |ns| && x == base + Offset(ns, k) && y == base + Offset(ns, k + 1) == x + NodeSize(ns[k])
  {
    hide FlattenAll, NodeSize, WellFormed, HoldsTokens, BoundariesAre;
  }

  lemma SpanTokens(doc: seq<Node>, parent: Path, ns: seq<Node>, base: nat, k: nat, x: nat, y: nat)
    requires Spans(doc, parent, ns, base, k, x, y)
    ensures x < y <= |FlattenAll(doc)| && y == x + NodeSize(ns[k])
    ensures FlattenAll(doc)[x..y] == Flatten(ns[k])
  {
    hide *;
    SpansParts(doc, parent, ns, base, k, x, y);
    LocatedParts(doc, parent, ns, base);
    OffsetGrows(ns, k, k + 1);
    ChildTokens(ns, k);
    HoldsSlice(FlattenAll(doc), base, FlattenAll(ns), Offset(ns, k), Offset(ns, k + 1));
  }

  /** A boundary strictly between the sides of child `k` is a boundary below that child. */
  lemma BelowChild(doc: seq<Node>, parent: Path, ns: seq<Node>, base: nat, k: nat, x: nat, y: nat, b: Boundary)
    requires WellFormedAll(doc) && Spans(doc, parent, ns, base, k, x, y) && ValidBoundary(doc, b)
    ensures x < Position(doc, 0, b) < y <==> |parent| < |b.parent| && b.parent[..|parent| + 1] == parent + [k]
    ensures x == Position(doc, 0, b) ==> b == Boundary(parent, k)
  {
    LocatedAt(doc, parent, ns, base, k);
    LocatedAt(doc, parent, ns, base, k + 1);
    assert PutInside(b, Swap(parent, k, k, [])) <==> Covers(Swap(parent, k, k, []), b.parent);
    ExtendsIsCovered(parent, k, b.parent);
    hide *;
    PositionOrder(doc, 0, Boundary(parent, k), b);
    PositionOrder(doc, 0, b, Boundary(parent, k + 1));
    StrictlyBetween(parent, k, k, b);
  }

  lemma ExtendsIsCovered(parent: Path, k: int, path: Path)
    ensures Covers(Swap(parent, k, k, []), path) <==> |parent| < |path| && path[..|parent| + 1] == parent + [k]
  {
    if |parent| < |path| {
      assert path[..|parent| + 1] == path[..|parent|] + [path[|parent|]];
      if path[..|parent| + 1] == parent + [k] {
        assert path[..|parent|] == (parent + [k])[..|parent|] == parent;
      }
    }
  }

  lemma {:induction false} BelowMeansBranch(doc: seq<Node>, parent: Path, k: int, b: Boundary)
    requires ValidBoundary(doc, b) && |parent| < |b.parent| && b.parent[..|parent| + 1] == parent + [k]
    requires 0 <= k < |Siblings(doc, parent)|
    ensures Siblings(doc, parent)[k].Branch?
    decreases |parent|
  {
    assert b.parent[0] == b.parent[..|parent| + 1][0];
    if parent != [] {
      assert b.parent[1..][..|parent|] == b.parent[..|parent| + 1][1..] == parent[1..] + [k];
      BelowMeansBranch(doc[parent[0]].children, parent[1..], k, Boundary(b.parent[1..], b.idx));
    }
  }

  /** The boundary at which an edit starts. */
  function StartOf(e: Edit): Boundary {
    if e.Put? then e.at else Boundary(e.parent, e.lo)
  }

  lemma PlacedStart(doc: seq<Node>, es: seq<Edit>, i: nat)
    requires ValidEdits(doc, es) && i < |es|
    ensures ValidBoundary(doc, StartOf(es[i])) && PlacedAll(doc, es)[i].from == Position(doc, 0, StartOf(es[i]))
  {
    if es[i].Swap? {
      SwapSides(doc, es[i]);
    }
  }

  /** The swap behind a range of the token edit. */
  lemma RangeIsSwap(doc: seq<Node>, es: seq<Edit>, p: nat) returns (e: Edit)
    requires ValidEdits(doc, es) && RangeAt(PlacedAll(doc, es), p).Some?
    ensures e in es && e.Swap? && ValidEdit(doc, e)
    ensures ValidBoundary(doc, Boundary(e.parent, e.lo)) && ValidBoundary(doc, Boundary(e.parent, e.hi + 1))
    ensures p == Position(doc, 0, Boundary(e.parent, e.lo))
    ensures RangeAt(PlacedAll(doc, es), p).value.to == Position(doc, 0, Boundary(e.parent, e.hi + 1))
  {
    hide RangeAt, Position, ValidBoundary, ValidPath;
    var rs := PlacedAll(doc, es);
    RangeAtMember(rs, p);
    var i :| 0 <= i < |rs| && rs[i] == RangeAt(rs, p).value;
    e := es[i];
    SwapSides(doc, e);
  }

  /** Nothing happens strictly inside a text or a leaf. */
  lemma InsideIsQuiet(doc: seq<Node>, parent: Path, ns: seq<Node>, base: nat, k: nat, x: nat, y: nat, es: seq<Edit>)
    requires WellFormedAll(doc) && Spans(doc, parent, ns, base, k, x, y) && Siblings(doc, parent) == ns
    requires !ns[k].Branch? && ValidEdits(doc, es)
    ensures Quiet(PlacedAll(doc, es), x + 1, y)
  {
    hide FlattenAll, NodeSize, ContentSize, WellFormedAll, ValidBoundary, Position, Precedes, InsertedAt, RangeAt, Located;
    var rs := PlacedAll(doc, es);
    forall p: nat | x + 1 <= p < y
      ensures InsertedAt(rs, p) == [] && RangeAt(rs, p) == None
    {
      forall i | 0 <= i < |rs|
        ensures rs[i].from != p
      {
        PlacedStart(doc, es, i);
        BelowChild(doc, parent, ns, base, k, x, y, StartOf(es[i]));
        if rs[i].from == p {
          BelowMeansBranch(doc, parent, k, StartOf(es[i]));
        }
      }
      NothingThere(rs, p);
    }
  }

  /** A range that starts below child `k` also ends below it. */
  lemma CutBelow(doc: seq<Node>, parent: Path, ns: seq<Node>, base: nat, k: nat, x: nat, y: nat, es: seq<Edit>)
    requires WellFormedAll(doc) && Spans(doc, parent, ns, base, k, x, y) && ValidEdits(doc, es)
    ensures y > 0 && CleanCut(PlacedAll(doc, es), x + 1, y - 1)
    ensures CleanCut(PlacedAll(doc, es), x + 1, y)
  {
    SpanTokens(doc, parent, ns, base, k, x, y);
    hide FlattenAll, NodeSize, ContentSize, WellFormedAll, ValidBoundary, Position, Precedes, RangeAt, Located, PlacedAll;
    var rs := PlacedAll(doc, es);
    forall p: nat | x + 1 <= p < y && RangeAt(rs, p).Some?
      ensures RangeAt(rs, p).value.to <= y - 1
    {
      var e := RangeIsSwap(doc, es, p);
      BelowChild(doc, parent, ns, base, k, x, y, Boundary(e.parent, e.lo));
      BelowChild(doc, parent, ns, base, k, x, y, Boundary(e.parent, e.hi + 1));
    }
  }

  /** When no swap takes child `k`, no range reaches out of it. */
  lemma CutHere(doc: seq<Node>, parent: Path, ns: seq<Node>, base: nat, k: nat, x: nat, y: nat, es: seq<Edit>)
    requires WellFormedAll(doc) && Spans(doc, parent, ns, base, k, x, y) && ValidEdits(doc, es)
    requires SwapAt(es, Boundary(parent, k)) == None
    ensures CleanCut(PlacedAll(doc, es), x, y)
    ensures RangeAt(PlacedAll(doc, es), x) == None
  {
    LocatedAt(doc, parent, ns, base, k);
    SwapsAreRanges(doc, es, Boundary(parent, k));
    hide RangeAt, Position, ValidBoundary, Located, PlacedAll, WellFormedAll, Offset, ValidEdits, SwapAt;
    CutBelow(doc, parent, ns, base, k, x, y, es);
  }

  lemma NoSwapAtEnd(doc: seq<Node>, es: seq<Edit>, parent: Path, ns: seq<Node>)
    requires ValidEdits(doc, es) && Siblings(doc, parent) == ns
    ensures SwapAt(es, Boundary(parent, |ns|)) == None
  {
    var s := SwapAt(es, Boundary(parent, |ns|));
    if s.Some? {
      RangeIsRun(doc, parent, s.value.lo);
    }
  }

  /** The pass over a text or leaf that no swap takes. */
  lemma LeafPass(doc: seq<Node>, es: seq<Edit>, ns: seq<Node>, parent: Path, base: nat, k: nat, x: nat, y: nat)
    requires WellFormedAll(doc) && ValidEdits(doc, es)
    requires Spans(doc, parent, ns, base, k, x, y) && Siblings(doc, parent) == ns && !ns[k].Branch?
    ensures x < y <= |FlattenAll(doc)|
    ensures [FlattenAll(doc)[x]] + Pass(FlattenAll(doc), PlacedAll(doc, es), x + 1, y) == Flatten(ns[k])
  {
    assert k < |ns|;
    hide *;
    SpanTokens(doc, parent, ns, base, k, x, y);
    InsideIsQuiet(doc, parent, ns, base, k, x, y, es);
    PassQuiet(FlattenAll(doc), PlacedAll(doc, es), x + 1, y);
    SliceHead(FlattenAll(doc), x, y);
  }

  /** The pass over the inside and the close token of a branch, given the pass over its content. */
  lemma BranchPass(doc: seq<Node>, es: seq<Edit>, ns: seq<Node>, parent: Path, base: nat, k: nat, x: nat, y: nat,
                   kids: seq<Node>, edited: seq<Node>)
    requires WellFormedAll(doc) && ValidEdits(doc, es)
    requires Spans(doc, parent, ns, base, k, x, y) && Siblings(doc, parent) == ns
    requires ns[k].Branch? && kids == ns[k].children
    requires y == x + 2 + |FlattenAll(kids)| && y <= |FlattenAll(doc)|
    requires ForestIs(doc, es, x + 1, y - 1, edited)
    ensures [FlattenAll(doc)[x]] + Pass(FlattenAll(doc), PlacedAll(doc, es), x + 1, y) == Flatten(Branch(ns[k].kind, edited))
  {
    assert x + 1 <= y - 1 && Pass(FlattenAll(doc), PlacedAll(doc, es), x + 1, y - 1) + InsertedAt(PlacedAll(doc, es), y - 1) == FlattenAll(edited);
    hide *;
    CloseToken(doc, es, ns, parent, base, k, x, y, kids);
    CutBelow(doc, parent, ns, base, k, x, y, es);
    CloseStep(FlattenAll(doc), PlacedAll(doc, es), x, y, ns[k].kind, edited);
  }

  lemma CloseStep(ts: seq<Token>, rs: seq<ResolvedOp>, x: nat, y: nat, kind: Kind, edited: seq<Node>)
    requires x + 2 <= y <= |ts|
    requires ts[x] == Open(kind) && ts[y - 1] == Close(kind)
    requires RangeAt(rs, y - 1) == None && CleanCut(rs, x + 1, y - 1)
    requires Pass(ts, rs, x + 1, y - 1) + InsertedAt(rs, y - 1) == FlattenAll(edited)
    ensures [ts[x]] + Pass(ts, rs, x + 1, y) == Flatten(Branch(kind, edited))
  {
    hide *;
    FlattenBranch(kind, edited);
    CloseTail(ts, rs, x + 1, y - 1);
    Assoc([ts[x]], FlattenAll(edited), [ts[y - 1]]);
  }

  lemma CloseTail(ts: seq<Token>, rs: seq<ResolvedOp>, lo: nat, last: nat)
    requires lo <= last < |ts|
    requires RangeAt(rs, last) == None && CleanCut(rs, lo, last)
    ensures Pass(ts, rs, lo, last + 1) == Pass(ts, rs, lo, last) + InsertedAt(rs, last) + [ts[last]]
  {
    assert Pass(ts, rs, last + 1, last + 1) == [];
    hide *;
    PassToken(ts, rs, last, last + 1);
    AppendNil([ts[last]]);
    PassSplit(ts, rs, lo, last, last + 1);
    Assoc(Pass(ts, rs, lo, last), InsertedAt(rs, last), [ts[last]]);
  }

  lemma CloseToken(doc: seq<Node>, es: seq<Edit>, ns: seq<Node>, parent: Path, base: nat, k: nat, x: nat, y: nat, kids: seq<Node>)
    requires WellFormedAll(doc) && ValidEdits(doc, es)
    requires Spans(doc, parent, ns, base, k, x, y) && Siblings(doc, parent) == ns
    requires ns[k].Branch? && kids == ns[k].children && y == x + 2 + |FlattenAll(kids)| && y <= |FlattenAll(doc)|
    ensures FlattenAll(doc)[x] == Open(ns[k].kind) && FlattenAll(doc)[y - 1] == Close(ns[k].kind)
    ensures RangeAt(PlacedAll(doc, es), y - 1) == None
  {
    hide *;
    SpansParts(doc, parent, ns, base, k, x, y);
    BranchEnds(doc, parent, ns, base, k, x, y, kids);
    LocatedBelow(doc, parent, ns, base, k, kids, x + 1);
    LocatedAt(doc, parent + [k], kids, x + 1, |kids|);
    SwapsAreRanges(doc, es, Boundary(parent + [k], |kids|));
    NoSwapAtEnd(doc, es, parent + [k], kids);
  }

  lemma BranchEnds(doc: seq<Node>, parent: Path, ns: seq<Node>, base: nat, k: nat, x: nat, y: nat, kids: seq<Node>)
    requires Spans(doc, parent, ns, base, k, x, y) && ns[k].Branch? && kids == ns[k].children
    requires y == x + 2 + |FlattenAll(kids)| && y <= |FlattenAll(doc)|
    ensures FlattenAll(doc)[x] == Open(ns[k].kind) && FlattenAll(doc)[y - 1] == Close(ns[k].kind)
  {
    var all, own := FlattenAll(doc), Flatten(ns[k]);
    assert own[0] == Open(ns[k].kind) && own[|own| - 1] == Close(ns[k].kind);
    hide *;
    SpanTokens(doc, parent, ns, base, k, x, y);
    assert all[x..y][0] == all[x] && all[x..y][y - x - 1] == all[y - 1];
  }

  /** What `ForestPass` claims about the children `i..`. */
  ghost predicate ForestIs(doc: seq<Node>, es: seq<Edit>, x: nat, end: nat, out: seq<Node>)
    requires ValidEdits(doc, es)
  {
    && x <= end <= |FlattenAll(doc)|
    && Pass(FlattenAll(doc), PlacedAll(doc, es), x, end) + InsertedAt(PlacedAll(doc, es), end) == FlattenAll(out)
  }

  /** The pass over the children `i..` of a node is the flattening of the edited children. */
  lemma {:induction false} ForestPass(doc: seq<Node>, es: seq<Edit>, ns: seq<Node>, parent: Path, base: nat, i: nat,
                                      x: nat, end: nat)
    requires WellFormedAll(doc) && ValidEdits(doc, es)
    requires Located(doc, parent, ns, base) && Siblings(doc, parent) == ns && i <= |ns|
    requires x == base + Offset(ns, i) && end == base + |FlattenAll(ns)|
    ensures ForestIs(doc, es, x, end, EditForest(ns, parent, i, es))
    decreases ns, |ns| - i
  {
    hide FlattenAll, Flatten, ForestIs, Located, Siblings, WellFormedAll, WellFormed, ValidEdits, Offset, NodeSize, ContentSize, PutsAt, Pass, PlacedAll, InsertedAt, SwapAt;
    if i == |ns| {
      ForestEnd(doc, es, ns, parent, base, x, end);
    } else {
      match SwapAt(es, Boundary(parent, i))
      case Some(s) =>
        SwapIsRun(doc, es, s, ns, parent, i);
        ForestPass(doc, es, ns, parent, base, s.hi + 1, base + Offset(ns, s.hi + 1), end);
        ForestSwap(doc, es, ns, parent, base, i, x, end, s, EditForest(ns, parent, s.hi + 1, es));
      case None =>
        var y := base + Offset(ns, i + 1);
        ForestPass(doc, es, ns, parent, base, i + 1, y, end);
        if ns[i].Branch? {
          var kids := ns[i].children;
          BranchSpan(doc, parent, ns, base, i, x, y, kids);
          LocatedBelow(doc, parent, ns, base, i, kids, x + 1);
          assert Offset(kids, 0) == 0 by {
            NoOffset(kids);
          }
          ForestPass(doc, es, kids, parent + [i], x + 1, 0, x + 1, y - 1);
          BranchPass(doc, es, ns, parent, base, i, x, y, kids, EditForest(kids, parent + [i], 0, es));
        } else {
          LeafPass(doc, es, ns, parent, base, i, x, y);
        }
        ForestChild(doc, es, ns, parent, base, i, x, y, end, EditNode(ns[i], parent + [i], es), EditForest(ns, parent, i + 1, es));
    }
  }

  lemma SwapIsRun(doc: seq<Node>, es: seq<Edit>, s: Edit, ns: seq<Node>, parent: Path, i: nat)
    requires ValidEdits(doc, es) && SwapAt(es, Boundary(parent, i)) == Some(s) && Siblings(doc, parent) == ns
    ensures i <= s.hi < |ns|
  {
    RangeIsRun(doc, parent, s.hi);
  }

  lemma BranchSpan(doc: seq<Node>, parent: Path, ns: seq<Node>, base: nat, k: nat, x: nat, y: nat, kids: seq<Node>)
    requires Located(doc, parent, ns, base) && k < |ns| && ns[k].Branch? && kids == ns[k].children
    requires x == base + Offset(ns, k) && y == base + Offset(ns, k + 1)
    ensures y == x + 2 + |FlattenAll(kids)| && y <= |FlattenAll(doc)|
  {
    hide FlattenAll;
    SpanTokens(doc, parent, ns, base, k, x, y);
    ContentFitsNode(ns[k]);
  }

  lemma ForestEnd(doc: seq<Node>, es: seq<Edit>, ns: seq<Node>, parent: Path, base: nat, x: nat, end: nat)
    requires WellFormedAll(doc) && ValidEdits(doc, es) && Located(doc, parent, ns, base)
    requires x == base + Offset(ns, |ns|) && end == base + |FlattenAll(ns)|
    ensures ForestIs(doc, es, x, end, EditForest(ns, parent, |ns|, es))
  {
    LocatedAt(doc, parent, ns, base, |ns|);
    PutsAreInserted(doc, es, Boundary(parent, |ns|));
    AppendNil(PutsAt(es, Boundary(parent, |ns|)));
    AppendNil(InsertedAt(PlacedAll(doc, es), end));
    hide FlattenAll, Siblings, PutsAt, InsertedAt, Located, WellFormedAll, PlacedAll, ValidEdits, Offset;
  }

  lemma ForestSwap(doc: seq<Node>, es: seq<Edit>, ns: seq<Node>, parent: Path, base: nat, i: nat, x: nat, end: nat,
                   s: Edit, rest: seq<Node>)
    requires WellFormedAll(doc) && ValidEdits(doc, es) && Located(doc, parent, ns, base)
    requires i < |ns| && x == base + Offset(ns, i) && end == base + |FlattenAll(ns)|
    requires SwapAt(es, Boundary(parent, i)) == Some(s) && i <= s.hi < |ns|
    requires ForestIs(doc, es, base + Offset(ns, s.hi + 1), end, rest)
    ensures ForestIs(doc, es, x, end, PutsAt(es, Boundary(parent, i)) + (s.nodes + rest))
  {
    hide FlattenAll, Flatten, Siblings, Pass, InsertedAt, RangeAt, PutsAt, Located, WellFormedAll, PlacedAll, ValidEdits, Offset, ValidBoundary, Position, NodeSize, ContentSize;
    LocatedAt(doc, parent, ns, base, i);
    LocatedAt(doc, parent, ns, base, s.hi + 1);
    PutsAreInserted(doc, es, Boundary(parent, i));
    SwapsAreRanges(doc, es, Boundary(parent, i));
    OffsetGrows(ns, i, s.hi + 1);
    SwapStep(FlattenAll(doc), PlacedAll(doc, es), x, base + Offset(ns, s.hi + 1), end, s.nodes, rest, PutsAt(es, Boundary(parent, i)));
  }

  lemma ForestChild(doc: seq<Node>, es: seq<Edit>, ns: seq<Node>, parent: Path, base: nat, i: nat, x: nat, y: nat, end: nat,
                    child: Node, rest: seq<Node>)
    requires WellFormedAll(doc) && ValidEdits(doc, es) && Spans(doc, parent, ns, base, i, x, y)
    requires end == base + |FlattenAll(ns)| && SwapAt(es, Boundary(parent, i)) == None
    requires ForestIs(doc, es, y, end, rest)
    requires x < y <= |FlattenAll(doc)|
    requires [FlattenAll(doc)[x]] + Pass(FlattenAll(doc), PlacedAll(doc, es), x + 1, y) == Flatten(child)
    ensures ForestIs(doc, es, x, end, PutsAt(es, Boundary(parent, i)) + ([child] + rest))
  {
    hide FlattenAll, Siblings, Pass, InsertedAt, RangeAt, PutsAt, Flatten, Located, WellFormedAll, PlacedAll, ValidEdits, Offset, CleanCut, ValidBoundary, Position;
    LocatedAt(doc, parent, ns, base, i);
    PutsAreInserted(doc, es, Boundary(parent, i));
    CutHere(doc, parent, ns, base, i, x, y, es);
    ChildStep(FlattenAll(doc), PlacedAll(doc, es), x, y, end, child, rest, PutsAt(es, Boundary(parent, i)));
  }

  lemma SwapStep(ts: seq<Token>, rs: seq<ResolvedOp>, x: nat, next: nat, end: nat, nodes: seq<Node>, rest: seq<Node>, puts: seq<Node>)
    requires x < next <= end <= |ts|
    requires InsertedAt(rs, x) == FlattenAll(puts)
    requires RangeAt(rs, x) == Some(ResolvedOp(false, x, next, nodes))
    requires Pass(ts, rs, next, end) + InsertedAt(rs, end) == FlattenAll(rest)
    ensures Pass(ts, rs, x, end) + InsertedAt(rs, end) == FlattenAll(puts + (nodes + rest))
  {
    hide *;
    PassRange(ts, rs, x, end, ResolvedOp(false, x, next, nodes));
    Regroup(FlattenAll(puts), FlattenAll(nodes), Pass(ts, rs, next, end), InsertedAt(rs, end));
    FlattenAppend(nodes, rest);
    FlattenAppend(puts, nodes + rest);
  }

  lemma ChildStep(ts: seq<Token>, rs: seq<ResolvedOp>, x: nat, y: nat, end: nat, child: Node, rest: seq<Node>, puts: seq<Node>)
    requires x < y <= end <= |ts|
    requires InsertedAt(rs, x) == FlattenAll(puts) && RangeAt(rs, x) == None && CleanCut(rs, x, y)
    requires [ts[x]] + Pass(ts, rs, x + 1, y) == Flatten(child)
    requires Pass(ts, rs, y, end) + InsertedAt(rs, end) == FlattenAll(rest)
    ensures Pass(ts, rs, x, end) + InsertedAt(rs, end) == FlattenAll(puts + ([child] + rest))
  {
    hide *;
    FlattenOne(child);
    PassSplit(ts, rs, x, y, end);
    PassToken(ts, rs, x, y);
    Regroup(FlattenAll(puts), FlattenAll([child]), Pass(ts, rs, y, end), InsertedAt(rs, end));
    FlattenAppend([child], rest);
    FlattenAppend(puts, [child] + rest);
  }

  /**
   * The token edit of a batch is the flattening of the simultaneous edit of the tree. In
   * particular the result is again a well-bracketed document.
   */
  lemma TokenEditIsTreeEdit(doc: seq<Node>, es: seq<Edit>)
    requires WellFormedAll(doc) && ValidEdits(doc, es)
    ensures Simultaneous(FlattenAll(doc), PlacedAll(doc, es)) == FlattenAll(EditForest(doc, [], 0, es))
  {
    LocatedRoot(doc);
    hide FlattenAll, Located, PlacedAll;
    assert Siblings(doc, []) == doc && Offset(doc, 0) == 0;
    ForestPass(doc, es, doc, [], 0, 0, 0, |FlattenAll(doc)|);
  }
}
