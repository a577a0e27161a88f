/** Documents as trees and as flat token sequences. */
module DocTree {
  import opened SeqFacts

  // A position of the editor is an index into the token sequence, so the size of a node
  // is the length of its flattening. The top node has no tokens of its own: a document is
  // the sequence of its children, and its content starts at position 0.

  /** A node type with its attributes; `textblock` says that its content is inline. */
  datatype Kind = Kind(name: string, attrs: string, textblock: bool)

  datatype Node =
    | Text(chars: string, marks: string)
    | Leaf(kind: Kind)
    | Branch(kind: Kind, children: seq<Node>)

  datatype Token = Open(kind: Kind) | Close(kind: Kind) | Atom(kind: Kind) | Ch(c: char, marks: string)

  function TextTokens(chars: string, marks: string): (ts: seq<Token>)
    ensures |ts| == |chars|
    ensures forall i :: 0 <= i < |chars| ==> ts[i] == Ch(chars[i], marks)
  {
    seq(|chars|, i requires 0 <= i < |chars| => Ch(chars[i], marks))
  }

  function Flatten(n: Node): seq<Token>
    decreases n, 1
  {
    match n
    case Text(chars, marks) => TextTokens(chars, marks)
    case Leaf(kind) => [Atom(kind)]
    case Branch(kind, children) => [Open(kind)] + FlattenAll(children) + [Close(kind)]
  }

  function FlattenAll(ns: seq<Node>): seq<Token>
    decreases ns, 0
  {
    if ns == [] then [] else Flatten(ns[0]) + FlattenAll(ns[1..])
  }

  /** `nodeSize` as the editor computes it. */
  function NodeSize(n: Node): (size: nat)
    ensures size == |Flatten(n)|
    decreases n, 1
  {
    match n
    case Text(chars, _) => |chars|
    case Leaf(_) => 1
    case Branch(_, children) => ContentSize(children) + 2
  }

  function ContentSize(ns: seq<Node>): (size: nat)
    ensures size == |FlattenAll(ns)|
    decreases ns, 0
  {
    if ns == [] then 0 else NodeSize(ns[0]) + ContentSize(ns[1..])
  }

  /** The editor has no empty text nodes. */
  predicate WellFormed(n: Node)
    decreases n, 1
  {
    match n
    case Text(chars, _) => chars != ""
    case Leaf(_) => true
    case Branch(_, children) => WellFormedAll(children)
  }

  predicate WellFormedAll(ns: seq<Node>)
    decreases ns, 0
  {
    forall i :: 0 <= i < |ns| ==> WellFormed(ns[i])
  }

  function Kids(n: Node): seq<Node> {
    if n.Branch? then n.children else []
  }

  function TypeName(n: Node): string {
    if n.Text? then "text" else n.kind.name
  }

  /** Tokens taken by the first `i` nodes of `ns`. */
  function Offset(ns: seq<Node>, i: nat): (o: nat)
    requires i <= |ns|
  {
    if i == 0 then 0 else Offset(ns, i - 1) + NodeSize(ns[i - 1])
  }

  lemma NoOffset(ns: seq<Node>)
    ensures Offset(ns, 0) == 0
  {
  }

  lemma FlattenBranch(kind: Kind, ns: seq<Node>)
    ensures Flatten(Branch(kind, ns)) == [Open(kind)] + FlattenAll(ns) + [Close(kind)]
  {
  }

  lemma {:induction false} FlattenAppend(a: seq<Node>, b: seq<Node>)
    ensures FlattenAll(a + b) == FlattenAll(a) + FlattenAll(b)
  {
    if a == [] {
      assert a + b == b;
    } else {
      FlattenAppend(a[1..], b);
      assert (a + b)[1..] == a[1..] + b && (a + b)[0] == a[0];
      Assoc(Flatten(a[0]), FlattenAll(a[1..]), FlattenAll(b));
    }
  }

  lemma {:induction false} OffsetIsPrefixSize(ns: seq<Node>, i: nat)
    requires i <= |ns|
    ensures Offset(ns, i) == |FlattenAll(ns[..i])|
  {
    if i > 0 {
      OffsetIsPrefixSize(ns, i - 1);
      FlattenAppend(ns[..i - 1], [ns[i - 1]]);
      assert ns[..i] == ns[..i - 1] + [ns[i - 1]];
      assert FlattenAll([ns[i - 1]]) == Flatten(ns[i - 1]);
    }
  }

  /** The siblings `i..j` occupy exactly the tokens between their two offsets. */
  lemma SiblingTokens(ns: seq<Node>, i: nat, j: nat)
    requires i <= j <= |ns|
    ensures Offset(ns, i) <= Offset(ns, j) <= |FlattenAll(ns)|
    ensures FlattenAll(ns)[Offset(ns, i)..Offset(ns, j)] == FlattenAll(ns[i..j])
    ensures Offset(ns, |ns|) == |FlattenAll(ns)|
  {
    hide FlattenAll, Offset;
    var a, b, c := ns[..i], ns[i..j], ns[j..];
    FlattenAppend(a, b);
    FlattenAppend(a + b, c);
    assert a + b == ns[..j];
    assert ns[..j] + c == ns == ns[..|ns|];
    OffsetIsPrefixSize(ns, i);
    OffsetIsPrefixSize(ns, j);
    OffsetIsPrefixSize(ns, |ns|);
    MiddleSlice(FlattenAll(a), FlattenAll(b), FlattenAll(c));
  }

  lemma SizePositive(n: Node)
    requires WellFormed(n)
    ensures NodeSize(n) >= 1
  {
  }

  lemma {:induction false} OffsetGrows(ns: seq<Node>, i: nat, j: nat)
    requires i < j <= |ns|
    requires WellFormedAll(ns)
    ensures Offset(ns, i) + NodeSize(ns[i]) <= Offset(ns, j)
    ensures Offset(ns, i) < Offset(ns, j)
    decreases j
  {
    SizePositive(ns[i]);
    if i + 1 < j {
      OffsetGrows(ns, i, j - 1);
    }
  }
}
