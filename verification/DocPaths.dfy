/** Block paths and the positions they address. */
module DocPaths {
  import opened SeqFacts
  import opened DocTree

  // Every position an edit uses is a boundary between two siblings (or before the first,
  // or after the last). The main result is `PositionOrder`: comparing two token positions
  // is the same as comparing the two boundaries in the tree, so two boundaries share a
  // position only when they are the same boundary.

  /** Child indices from the root down; an entry may be out of range. */
  type Path = seq<int>

  /** The place in front of child `idx` of the node at `parent` (`[]` is the document). */
  datatype Boundary = Boundary(parent: Path, idx: int)

  predicate ValidPath(ns: seq<Node>, path: Path)
    decreases |path|
  {
    && path != []
    && 0 <= path[0] < |ns|
    && (|path| == 1 || ValidPath(Kids(ns[path[0]]), path[1..]))
  }

  function NodeAt(ns: seq<Node>, path: Path): Node
    requires ValidPath(ns, path)
    decreases |path|
  {
    if |path| == 1 then ns[path[0]] else NodeAt(Kids(ns[path[0]]), path[1..])
  }

  predicate ValidBoundary(ns: seq<Node>, b: Boundary)
    decreases |b.parent|
  {
    if b.parent == [] then
      0 <= b.idx <= |ns|
    else
      && 0 <= b.parent[0] < |ns|
      && ns[b.parent[0]].Branch?
      && ValidBoundary(ns[b.parent[0]].children, Boundary(b.parent[1..], b.idx))
  }

  /** Token position of a boundary, when the content of `ns` starts at `base`. */
  function Position(ns: seq<Node>, base: nat, b: Boundary): nat
    requires ValidBoundary(ns, b)
    decreases |b.parent|
  {
    if b.parent == [] then
      base + Offset(ns, b.idx)
    else
      Position(ns[b.parent[0]].children, base + Offset(ns, b.parent[0]) + 1, Boundary(b.parent[1..], b.idx))
  }

  /** Document order on boundaries. */
  predicate Precedes(a: Boundary, b: Boundary)
    decreases |a.parent|
  {
    if a.parent == [] && b.parent == [] then a.idx < b.idx
    else if a.parent == [] then a.idx <= b.parent[0]
    else if b.parent == [] then a.parent[0] < b.idx
    else
      || a.parent[0] < b.parent[0]
      || (a.parent[0] == b.parent[0] && Precedes(Boundary(a.parent[1..], a.idx), Boundary(b.parent[1..], b.idx)))
  }

  function Parent(path: Path): Path
    requires path != []
  {
    path[..|path| - 1]
  }

  function Last(path: Path): int
    requires path != []
  {
    path[|path| - 1]
  }

  /** The boundaries on the two sides of the node at `path`. */
  function Before(path: Path): Boundary
    requires path != []
  {
    Boundary(Parent(path), Last(path))
  }

  function After(path: Path): Boundary
    requires path != []
  {
    Boundary(Parent(path), Last(path) + 1)
  }

  lemma {:induction false} PathSides(ns: seq<Node>, path: Path)
    requires ValidPath(ns, path)
    ensures ValidBoundary(ns, Before(path))
    ensures ValidBoundary(ns, After(path))
    decreases |path|
  {
    if |path| > 1 {
      PathSides(Kids(ns[path[0]]), path[1..]);
      assert Parent(path)[1..] == Parent(path[1..]);
    }
  }

  lemma ContentFitsNode(n: Node)
    requires n.Branch?
    ensures NodeSize(n) == |FlattenAll(n.children)| + 2
  {
  }

  lemma {:induction false} PositionBounds(ns: seq<Node>, base: nat, b: Boundary)
    requires ValidBoundary(ns, b)
    ensures base <= Position(ns, base, b) <= base + |FlattenAll(ns)|
    decreases |b.parent|
  {
    hide FlattenAll, NodeSize, ContentSize;
    if b.parent == [] {
      SiblingTokens(ns, b.idx, |ns|);
    } else {
      ContentFitsNode(ns[b.parent[0]]);
      var k := b.parent[0];
      PositionBounds(ns[k].children, base + Offset(ns, k) + 1, Boundary(b.parent[1..], b.idx));
      SiblingTokens(ns, k + 1, |ns|);
      assert Offset(ns, k + 1) == Offset(ns, k) + NodeSize(ns[k]);
    }
  }

  /** A boundary below child `k` lies strictly between the two sides of that child. */
  lemma InnerBounds(ns: seq<Node>, base: nat, b: Boundary)
    requires ValidBoundary(ns, b) && b.parent != []
    ensures base + Offset(ns, b.parent[0]) < Position(ns, base, b) < base + Offset(ns, b.parent[0] + 1)
  {
    hide FlattenAll, NodeSize, ContentSize;
    var k := b.parent[0];
    ContentFitsNode(ns[k]);
    PositionBounds(ns[k].children, base + Offset(ns, k) + 1, Boundary(b.parent[1..], b.idx));
    assert Offset(ns, k + 1) == Offset(ns, k) + NodeSize(ns[k]);
  }

  lemma {:induction false} OffsetMonotone(ns: seq<Node>, i: nat, j: nat)
    requires i <= j <= |ns|
    requires WellFormedAll(ns)
    ensures Offset(ns, i) <= Offset(ns, j)
    ensures i < j ==> Offset(ns, i) < Offset(ns, j)
  {
    if i < j {
      OffsetGrows(ns, i, j);
    }
  }

  lemma {:induction false} PrecedesPosition(ns: seq<Node>, base: nat, a: Boundary, b: Boundary)
    requires WellFormedAll(ns)
    requires ValidBoundary(ns, a) && ValidBoundary(ns, b)
    requires Precedes(a, b)
    ensures Position(ns, base, a) < Position(ns, base, b)
    decreases |a.parent|
  {
    if a.parent != [] && b.parent != [] && a.parent[0] == b.parent[0] {
      hide FlattenAll, NodeSize, ContentSize, Offset;
      var k := a.parent[0];
      assert WellFormed(ns[k]);
      PrecedesPosition(ns[k].children, base + Offset(ns, k) + 1,
                       Boundary(a.parent[1..], a.idx), Boundary(b.parent[1..], b.idx));
    } else {
      hide *;
      ApartPosition(ns, base, a, b);
    }
  }

  /** The same where the two boundaries do not lie below one child. */
  lemma ApartPosition(ns: seq<Node>, base: nat, a: Boundary, b: Boundary)
    requires WellFormedAll(ns)
    requires ValidBoundary(ns, a) && ValidBoundary(ns, b)
    requires Precedes(a, b) && (a.parent == [] || b.parent == [] || a.parent[0] != b.parent[0])
    ensures Position(ns, base, a) < Position(ns, base, b)
  {
    hide FlattenAll, NodeSize, ContentSize, Offset;
    if a.parent == [] && b.parent == [] {
      OffsetMonotone(ns, a.idx, b.idx);
    } else if a.parent == [] {
      OffsetMonotone(ns, a.idx, b.parent[0]);
      InnerBounds(ns, base, b);
    } else if b.parent == [] {
      InnerBounds(ns, base, a);
      OffsetMonotone(ns, a.parent[0] + 1, b.idx);
    } else {
      InnerBounds(ns, base, a);
      InnerBounds(ns, base, b);
      OffsetMonotone(ns, a.parent[0] + 1, b.parent[0]);
    }
  }

  lemma {:induction false} PrecedesTotal(a: Boundary, b: Boundary)
    ensures a == b || Precedes(a, b) || Precedes(b, a)
    decreases |a.parent|
  {
    if a.parent != [] && b.parent != [] && a.parent[0] == b.parent[0] {
      PrecedesTotal(Boundary(a.parent[1..], a.idx), Boundary(b.parent[1..], b.idx));
      assert a.parent == [a.parent[0]] + a.parent[1..];
      assert b.parent == [b.parent[0]] + b.parent[1..];
    }
  }

  /** Token order is document order, so a position names exactly one boundary. */
  lemma PositionOrder(ns: seq<Node>, base: nat, a: Boundary, b: Boundary)
    requires WellFormedAll(ns)
    requires ValidBoundary(ns, a) && ValidBoundary(ns, b)
    ensures Precedes(a, b) <==> Position(ns, base, a) < Position(ns, base, b)
    ensures a == b <==> Position(ns, base, a) == Position(ns, base, b)
  {
    PrecedesTotal(a, b);
    if Precedes(a, b) {
      PrecedesPosition(ns, base, a, b);
    } else if Precedes(b, a) {
      PrecedesPosition(ns, base, b, a);
    }
  }

  /** The children of the node at `parent`. */
  function Siblings(ns: seq<Node>, parent: Path): seq<Node>
    decreases |parent|
  {
    if parent == [] then ns
    else if 0 <= parent[0] < |ns| then Siblings(Kids(ns[parent[0]]), parent[1..])
    else []
  }

  lemma {:induction false} SiblingsOfNode(ns: seq<Node>, path: Path)
    requires ValidPath(ns, path)
    ensures Siblings(ns, path) == Kids(NodeAt(ns, path))
    ensures 0 <= Last(path) < |Siblings(ns, Parent(path))|
    ensures Siblings(ns, Parent(path))[Last(path)] == NodeAt(ns, path)
    decreases |path|
  {
    if |path| > 1 {
      SiblingsOfNode(Kids(ns[path[0]]), path[1..]);
      assert Parent(path)[1..] == Parent(path[1..]);
    } else {
      assert path[1..] == [];
      assert Siblings(ns, path) == Siblings(Kids(ns[path[0]]), path[1..]);
    }
  }

  lemma ChildTokens(ns: seq<Node>, k: nat)
    requires k < |ns|
    ensures Offset(ns, k) + NodeSize(ns[k]) <= |FlattenAll(ns)|
    ensures FlattenAll(ns)[Offset(ns, k)..Offset(ns, k) + NodeSize(ns[k])] == Flatten(ns[k])
  {
    assert ns[k..k + 1] == [ns[k]];
    FlattenOne(ns[k]);
    assert Offset(ns, k + 1) == Offset(ns, k) + NodeSize(ns[k]);
    hide *;
    SiblingTokens(ns, k, k + 1);
  }

  lemma FlattenOne(n: Node)
    ensures FlattenAll([n]) == Flatten(n)
  {
  }

  /** The content tokens of child `k` inside the flattening of its siblings, and the tokens around it. */
  lemma InnerTokens(ns: seq<Node>, k: nat, at: nat, kids: seq<Node>)
    requires k < |ns| && ns[k].Branch? && kids == ns[k].children && at == Offset(ns, k) + 1
    ensures at + |FlattenAll(kids)| < |FlattenAll(ns)|
    ensures FlattenAll(ns)[at..at + |FlattenAll(kids)|] == FlattenAll(kids)
    ensures FlattenAll(ns)[at - 1] == Open(ns[k].kind)
    ensures FlattenAll(ns)[at + |FlattenAll(kids)|] == Close(ns[k].kind)
  {
    var all, size, inner := FlattenAll(ns), NodeSize(ns[k]), FlattenAll(kids);
    ContentFitsNode(ns[k]);
    var own := Flatten(ns[k]);
    assert own == [Open(ns[k].kind)] + inner + [Close(ns[k].kind)];
    hide *;
    ChildTokens(ns, k);
    MiddleSlice([Open(ns[k].kind)], inner, [Close(ns[k].kind)]);
    SubSlice(all, at - 1, own, 1, 1 + |inner|);
    assert all[at - 1] == own[0] && all[at + |inner|] == own[1 + |inner|];
  }

  /** A valid range names a run of existing siblings. */
  lemma {:induction false} RangeIsRun(ns: seq<Node>, parent: Path, i: int)
    requires ValidPath(ns, parent + [i])
    ensures 0 <= i < |Siblings(ns, parent)|
    decreases |parent|
  {
    SiblingsOfNode(ns, parent + [i]);
    assert Parent(parent + [i]) == parent;
  }

  /** The tokens between the two sides of a run of siblings are exactly those siblings. */
  lemma {:induction false} RangeTokens(ns: seq<Node>, base: nat, parent: Path, lo: int, hi: int, from: nat, to: nat)
    requires ValidBoundary(ns, Boundary(parent, lo)) && ValidBoundary(ns, Boundary(parent, hi + 1))
    requires 0 <= lo <= hi < |Siblings(ns, parent)|
    requires from == Position(ns, base, Boundary(parent, lo))
    requires to == Position(ns, base, Boundary(parent, hi + 1))
    ensures base <= from <= to <= base + |FlattenAll(ns)|
    ensures FlattenAll(ns)[from - base..to - base] == FlattenAll(Siblings(ns, parent)[lo..hi + 1])
    decreases |parent|
  {
    hide FlattenAll, NodeSize, ContentSize, Offset;
    if parent == [] {
      SiblingTokens(ns, lo, hi + 1);
      SiblingTokens(ns, hi + 1, |ns|);
      assert from - base == Offset(ns, lo) && to - base == Offset(ns, hi + 1);
    } else {
      var k := parent[0];
      var kids, at := ns[k].children, Offset(ns, k) + 1;
      RangeTokens(kids, base + at, parent[1..], lo, hi, from, to);
      InnerTokens(ns, k, at, kids);
      SliceOfSlice(FlattenAll(ns), at, FlattenAll(kids), from - base, to - base);
    }
  }
}
