/**
 * Edits on token sequences: the sequential splices the editor runs, and the single
 * simultaneous edit they stand for.
 */
module TokenEdit {
  import opened Prelude
  import opened SeqFacts
  import opened DocTree

  /** An operation resolved to positions of the original document. An insert has `from == to`. */
  datatype ResolvedOp = ResolvedOp(isInsert: bool, from: nat, to: nat, nodes: seq<Node>)

  predicate InBounds(r: ResolvedOp, n: nat) {
    r.from <= r.to <= n && (r.isInsert <==> r.from == r.to)
  }

  // ----- the simultaneous edit -----

  /** What inserts put at `pos`: the contents in reverse operation order. */
  function InsertedAt(rs: seq<ResolvedOp>, pos: nat): seq<Token> {
    if rs == [] then []
    else InsertedAt(rs[1..], pos) + (if rs[0].isInsert && rs[0].from == pos then FlattenAll(rs[0].nodes) else [])
  }

  /** The range that starts at `pos`. */
  function RangeAt(rs: seq<ResolvedOp>, pos: nat): Option<ResolvedOp> {
    if rs == [] then None
    else if !rs[0].isInsert && rs[0].from == pos then Some(rs[0])
    else RangeAt(rs[1..], pos)
  }

  /** The range that the pass takes at `lo`. */
  function TakenAt(rs: seq<ResolvedOp>, lo: nat, hi: nat): Option<ResolvedOp> {
    var r := RangeAt(rs, lo);
    if r.Some? && lo < r.value.to <= hi then r else None
  }

  /**
   * One left-to-right pass over the ORIGINAL tokens `lo..hi`: at each position first the
   * inserts, then either the replacement of the range that starts there or the token itself.
   */
  function Pass(ts: seq<Token>, rs: seq<ResolvedOp>, lo: nat, hi: nat): seq<Token>
    requires lo <= hi <= |ts|
    decreases hi - lo
  {
    if lo == hi then []
    else
      InsertedAt(rs, lo) +
      match TakenAt(rs, lo, hi)
      case Some(r) => FlattenAll(r.nodes) + Pass(ts, rs, r.to, hi)
      case None => [ts[lo]] + Pass(ts, rs, lo + 1, hi)
  }

  lemma PassToken(ts: seq<Token>, rs: seq<ResolvedOp>, lo: nat, hi: nat)
    requires lo < hi <= |ts| && RangeAt(rs, lo) == None
    ensures Pass(ts, rs, lo, hi) == InsertedAt(rs, lo) + ([ts[lo]] + Pass(ts, rs, lo + 1, hi))
  {
    hide FlattenAll, InsertedAt, RangeAt;
  }

  lemma PassRange(ts: seq<Token>, rs: seq<ResolvedOp>, lo: nat, hi: nat, r: ResolvedOp)
    requires lo < r.to <= hi <= |ts| && RangeAt(rs, lo) == Some(r)
    ensures Pass(ts, rs, lo, hi) == InsertedAt(rs, lo) + (FlattenAll(r.nodes) + Pass(ts, rs, r.to, hi))
  {
    hide FlattenAll, InsertedAt, RangeAt;
  }

  function Simultaneous(ts: seq<Token>, rs: seq<ResolvedOp>): seq<Token> {
    Pass(ts, rs, 0, |ts|) + InsertedAt(rs, |ts|)
  }

  // ----- the sequential splices -----

  function Splice(ts: seq<Token>, r: ResolvedOp): seq<Token>
    requires r.from <= r.to <= |ts|
  {
    ts[..r.from] + FlattenAll(r.nodes) + ts[r.to..]
  }

  /** Every operation lies in the part of the document that the earlier ones left untouched. */
  predicate Descends(rs: seq<ResolvedOp>, n: nat) {
    rs == [] || (InBounds(rs[0], n) && Descends(rs[1..], rs[0].from))
  }

  function RunSplices(ts: seq<Token>, rs: seq<ResolvedOp>, n: nat): seq<Token>
    requires n <= |ts| && Descends(rs, n)
    decreases |rs|
  {
    if rs == [] then ts else RunSplices(Splice(ts, rs[0]), rs[1..], rs[0].from)
  }

  /** Two operations that may appear in one batch, whatever their order. */
  predicate Compatible(a: ResolvedOp, b: ResolvedOp) {
    if !a.isInsert && !b.isInsert then !(a.from < b.to && b.from < a.to)
    else if a.isInsert && !b.isInsert then !(a.from > b.from && a.from < b.to)
    else if !a.isInsert && b.isInsert then !(b.from > a.from && b.from < a.to)
    else true
  }

  predicate AllCompatible(rs: seq<ResolvedOp>) {
    forall i, j :: 0 <= i < j < |rs| ==> Compatible(rs[i], rs[j])
  }

  // ----- the stable descending sort -----

  predicate SortsBefore(a: ResolvedOp, b: ResolvedOp) {
    a.from > b.from || (a.from == b.from && !a.isInsert && b.isInsert)
  }

  function InsertSorted(rs: seq<ResolvedOp>, x: ResolvedOp): (out: seq<ResolvedOp>)
    ensures forall y :: y in out <==> y in rs || y == x
  {
    if rs == [] then [x]
    else if SortsBefore(x, rs[0]) then [x] + rs
    else
      assert rs == [rs[0]] + rs[1..];
      [rs[0]] + InsertSorted(rs[1..], x)
  }

  /** The library's stable sort by descending position, ranges before inserts. */
  function StableSort(rs: seq<ResolvedOp>): (out: seq<ResolvedOp>) {
    if rs == [] then [] else InsertSorted(StableSort(rs[..|rs| - 1]), rs[|rs| - 1])
  }

  predicate Sorted(rs: seq<ResolvedOp>) {
    forall i, j :: 0 <= i < j < |rs| ==> !SortsBefore(rs[j], rs[i])
  }

  lemma {:induction false} InsertSortedSorted(rs: seq<ResolvedOp>, x: ResolvedOp)
    requires Sorted(rs)
    ensures Sorted(InsertSorted(rs, x))
  {
    if rs != [] && !SortsBefore(x, rs[0]) {
      InsertSortedSorted(rs[1..], x);
      var rest := InsertSorted(rs[1..], x);
      forall j | 0 <= j < |rest|
        ensures !SortsBefore(rest[j], rs[0])
      {
        assert rest[j] in rest;
        assert rest[j] in rs[1..] || rest[j] == x;
      }
    }
  }

  /** Stability: an inserted element comes after every element of its own key. */
  lemma {:induction false} InsertSortedStable(rs: seq<ResolvedOp>, x: ResolvedOp, pos: nat)
    requires Sorted(rs)
    ensures InsertedAt(InsertSorted(rs, x), pos) == InsertedAt(rs + [x], pos)
    ensures RangeAt(InsertSorted(rs, x), pos) == RangeAt(rs + [x], pos)
  {
    if rs == [] {
      assert rs + [x] == [x];
    } else if SortsBefore(x, rs[0]) {
      LaterKeys(rs, x, pos);
      assert ([x] + rs)[1..] == rs;
    } else {
      InsertSortedStable(rs[1..], x, pos);
      assert (rs + [x])[1..] == rs[1..] + [x];
    }
  }

  lemma {:induction false} LaterKeys(rs: seq<ResolvedOp>, x: ResolvedOp, pos: nat)
    requires forall i :: 0 <= i < |rs| ==> SortsBefore(x, rs[i])
    ensures InsertedAt(rs + [x], pos) == InsertedAt([x] + rs, pos)
    ensures RangeAt(rs + [x], pos) == RangeAt([x] + rs, pos)
  {
    if rs == [] {
      assert rs + [x] == [x] + rs;
    } else {
      LaterKeys(rs[1..], x, pos);
      assert (rs + [x])[1..] == rs[1..] + [x];
      assert ([x] + rs[1..])[1..] == rs[1..];
      assert ([x] + rs)[1..] == rs;
    }
  }

  lemma {:induction false} InsertSortedCompatible(rs: seq<ResolvedOp>, x: ResolvedOp)
    requires AllCompatible(rs)
    requires forall i :: 0 <= i < |rs| ==> Compatible(rs[i], x)
    ensures AllCompatible(InsertSorted(rs, x))
  {
    if rs != [] {
      if SortsBefore(x, rs[0]) {
        assert forall i :: 0 <= i < |rs| ==> Compatible(x, rs[i]);
      } else {
        InsertSortedCompatible(rs[1..], x);
        var rest := InsertSorted(rs[1..], x);
        forall j | 0 <= j < |rest|
          ensures Compatible(rs[0], rest[j])
        {
          assert rest[j] in rest;
        }
      }
    }
  }

  /** The sort keeps membership, compatibility and what each position receives. */
  lemma {:induction false} StableSortKeeps(rs: seq<ResolvedOp>)
    ensures Sorted(StableSort(rs))
    ensures forall y :: y in StableSort(rs) <==> y in rs
    ensures AllCompatible(rs) ==> AllCompatible(StableSort(rs))
    ensures forall pos: nat :: InsertedAt(StableSort(rs), pos) == InsertedAt(rs, pos)
    ensures forall pos: nat :: RangeAt(StableSort(rs), pos) == RangeAt(rs, pos)
  {
    if rs != [] {
      var front, x := rs[..|rs| - 1], rs[|rs| - 1];
      assert rs == front + [x];
      StableSortKeeps(front);
      var sorted := StableSort(front);
      InsertSortedSorted(sorted, x);
      if AllCompatible(rs) {
        forall i | 0 <= i < |sorted|
          ensures Compatible(sorted[i], x)
        {
          assert sorted[i] in front;
        }
        InsertSortedCompatible(sorted, x);
      }
      forall pos: nat
        ensures InsertedAt(InsertSorted(sorted, x), pos) == InsertedAt(rs, pos)
        ensures RangeAt(InsertSorted(sorted, x), pos) == RangeAt(rs, pos)
      {
        InsertSortedStable(sorted, x, pos);
        AppendOne(sorted, front, x, pos);
      }
    }
  }

  lemma {:induction false} InsertedAtAppend(a: seq<ResolvedOp>, x: ResolvedOp, pos: nat)
    ensures InsertedAt(a + [x], pos) == InsertedAt([x], pos) + InsertedAt(a, pos)
    ensures RangeAt(a + [x], pos) == (if RangeAt(a, pos).Some? then RangeAt(a, pos) else RangeAt([x], pos))
  {
    if a == [] {
      assert a + [x] == [x];
    } else {
      InsertedAtAppend(a[1..], x, pos);
      assert (a + [x])[1..] == a[1..] + [x];
    }
  }

  lemma AppendOne(a: seq<ResolvedOp>, b: seq<ResolvedOp>, x: ResolvedOp, pos: nat)
    requires InsertedAt(a, pos) == InsertedAt(b, pos) && RangeAt(a, pos) == RangeAt(b, pos)
    ensures InsertedAt(a + [x], pos) == InsertedAt(b + [x], pos)
    ensures RangeAt(a + [x], pos) == RangeAt(b + [x], pos)
  {
    InsertedAtAppend(a, x, pos);
    InsertedAtAppend(b, x, pos);
  }

  /** In a sorted compatible batch no operation reaches into a position an earlier one used. */
  lemma {:induction false} SortedDescends(rs: seq<ResolvedOp>, n: nat)
    requires Sorted(rs) && AllCompatible(rs)
    requires forall i :: 0 <= i < |rs| ==> InBounds(rs[i], n)
    ensures Descends(rs, n)
  {
    if rs != [] {
      forall i | 0 <= i < |rs[1..]|
        ensures InBounds(rs[1..][i], rs[0].from)
      {
        assert !SortsBefore(rs[i + 1], rs[0]) && Compatible(rs[0], rs[i + 1]);
      }
      SortedDescends(rs[1..], rs[0].from);
    }
  }

  // ----- splitting the simultaneous pass -----

  /** No range reaches across `mid` from the left. */
  predicate CleanCut(rs: seq<ResolvedOp>, lo: nat, mid: nat) {
    forall p: nat :: lo <= p < mid && RangeAt(rs, p).Some? ==> RangeAt(rs, p).value.to <= mid
  }

  lemma {:induction false} PassSplit(ts: seq<Token>, rs: seq<ResolvedOp>, lo: nat, mid: nat, hi: nat)
    requires lo <= mid <= hi <= |ts|
    requires CleanCut(rs, lo, mid)
    ensures Pass(ts, rs, lo, hi) == Pass(ts, rs, lo, mid) + Pass(ts, rs, mid, hi)
    decreases mid - lo
  {
    hide FlattenAll, InsertedAt, RangeAt;
    if lo == mid {
      assert Pass(ts, rs, lo, mid) == [];
    } else {
      var r := TakenAt(rs, lo, hi);
      assert TakenAt(rs, lo, mid) == r;
      var next := if r.Some? then r.value.to else lo + 1;
      PassSplit(ts, rs, next, mid, hi);
    }
  }

  predicate Quiet(rs: seq<ResolvedOp>, lo: nat, hi: nat) {
    forall p: nat :: lo <= p < hi ==> InsertedAt(rs, p) == [] && RangeAt(rs, p) == None
  }

  lemma {:induction false} PassQuiet(ts: seq<Token>, rs: seq<ResolvedOp>, lo: nat, hi: nat)
    requires lo <= hi <= |ts|
    requires Quiet(rs, lo, hi)
    ensures Pass(ts, rs, lo, hi) == ts[lo..hi]
    decreases hi - lo
  {
    hide FlattenAll, InsertedAt, RangeAt;
    if lo < hi {
      hide Pass;
      PassToken(ts, rs, lo, hi);
      PassQuiet(ts, rs, lo + 1, hi);
      SliceHead(ts, lo, hi);
    }
  }

  lemma {:induction false} PassDependsOn(ts: seq<Token>, a: seq<ResolvedOp>, b: seq<ResolvedOp>, lo: nat, hi: nat)
    requires lo <= hi <= |ts|
    requires forall p: nat :: lo <= p < hi ==> InsertedAt(a, p) == InsertedAt(b, p) && RangeAt(a, p) == RangeAt(b, p)
    ensures Pass(ts, a, lo, hi) == Pass(ts, b, lo, hi)
    decreases hi - lo
  {
    hide FlattenAll, InsertedAt, RangeAt;
    if lo < hi {
      var r := TakenAt(a, lo, hi);
      assert TakenAt(b, lo, hi) == r;
      var next := if r.Some? then r.value.to else lo + 1;
      PassDependsOn(ts, a, b, next, hi);
    }
  }

  lemma {:induction false} NothingThere(rs: seq<ResolvedOp>, p: nat)
    requires forall i :: 0 <= i < |rs| ==> rs[i].from != p
    ensures InsertedAt(rs, p) == [] && RangeAt(rs, p) == None
  {
    if rs != [] {
      NothingThere(rs[1..], p);
    }
  }

  lemma {:induction false} NoRangeThere(rs: seq<ResolvedOp>, p: nat)
    requires forall i :: 0 <= i < |rs| && !rs[i].isInsert ==> rs[i].from != p
    ensures RangeAt(rs, p) == None
  {
    if rs != [] {
      NoRangeThere(rs[1..], p);
    }
  }

  lemma {:induction false} RangeAtMember(rs: seq<ResolvedOp>, p: nat)
    ensures RangeAt(rs, p).Some? ==> RangeAt(rs, p).value in rs && RangeAt(rs, p).value.from == p && !RangeAt(rs, p).value.isInsert
  {
    if rs != [] {
      RangeAtMember(rs[1..], p);
    }
  }

  lemma {:induction false} DescendsBound(rs: seq<ResolvedOp>, n: nat)
    requires Descends(rs, n)
    ensures forall i :: 0 <= i < |rs| ==> InBounds(rs[i], n)
  {
    if rs != [] {
      DescendsBound(rs[1..], rs[0].from);
      assert forall i :: 1 <= i < |rs| ==> rs[i] == rs[1..][i - 1];
    }
  }

  lemma {:induction false} SpliceFrame(ts: seq<Token>, tail: seq<Token>, rs: seq<ResolvedOp>, n: nat)
    requires n <= |ts| && Descends(rs, n)
    ensures RunSplices(ts + tail, rs, n) == RunSplices(ts, rs, n) + tail
    decreases |rs|
  {
    if rs != [] {
      var r := rs[0];
      SpliceFrame(Splice(ts, r), tail, rs[1..], r.from);
      assert (ts + tail)[..r.from] == ts[..r.from];
      assert (ts + tail)[r.to..] == ts[r.to..] + tail;
      assert Splice(ts + tail, r) == Splice(ts, r) + tail;
    }
  }

  /** In a sorted batch nothing happens to the right of the first operation. */
  lemma QuietAfterFirst(rs: seq<ResolvedOp>, p: nat)
    requires rs != [] && Sorted(rs) && rs[0].from < p
    ensures InsertedAt(rs, p) == [] && RangeAt(rs, p) == None
  {
    assert forall i :: 0 < i < |rs| ==> !SortsBefore(rs[i], rs[0]);
    NothingThere(rs, p);
  }

  /** The last stretch of the pass: from the start of the first (rightmost) operation to `end`. */
  lemma PassLastStretch(ts: seq<Token>, rs: seq<ResolvedOp>, end: nat, r: ResolvedOp)
    requires rs != [] && Sorted(rs) && end <= |ts| && rs[0] == r && InBounds(r, end)
    ensures Pass(ts, rs, r.from, end) + InsertedAt(rs, end)
         == InsertedAt(rs[1..], r.from) + FlattenAll(r.nodes) + ts[r.to..end]
  {
    if r.from == end {
      LastAtEnd(ts, rs, end, r);
    } else if r.isInsert {
      LastIsInsert(ts, rs, end, r);
    } else {
      LastIsRange(ts, rs, end, r);
    }
  }

  lemma QuietTail(rs: seq<ResolvedOp>, from: nat, end: nat)
    requires rs != [] && Sorted(rs) && rs[0].from == from
    ensures Quiet(rs, from + 1, end)
  {
    hide InsertedAt, RangeAt, Sorted;
    forall p: nat | from < p < end
      ensures InsertedAt(rs, p) == [] && RangeAt(rs, p) == None
    {
      QuietAfterFirst(rs, p);
    }
  }

  lemma LastAtEnd(ts: seq<Token>, rs: seq<ResolvedOp>, end: nat, r: ResolvedOp)
    requires rs != [] && end <= |ts| && rs[0] == r && r.isInsert && r.from == r.to == end
    ensures Pass(ts, rs, end, end) + InsertedAt(rs, end) == InsertedAt(rs[1..], end) + FlattenAll(r.nodes) + ts[end..end]
  {
    hide FlattenAll;
    assert ts[end..end] == [];
    AppendNil(InsertedAt(rs, end));
    assert Pass(ts, rs, end, end) == [];
    hide *;
  }

  lemma FirstInsert(rs: seq<ResolvedOp>, r: ResolvedOp)
    requires rs != [] && Sorted(rs) && rs[0] == r && r.isInsert
    ensures InsertedAt(rs, r.from) == InsertedAt(rs[1..], r.from) + FlattenAll(r.nodes)
    ensures RangeAt(rs, r.from) == None
  {
    hide FlattenAll;
    assert forall i :: 0 < i < |rs| ==> !SortsBefore(rs[i], r);
    NoRangeThere(rs, r.from);
  }

  lemma LastIsInsert(ts: seq<Token>, rs: seq<ResolvedOp>, end: nat, r: ResolvedOp)
    requires rs != [] && Sorted(rs) && rs[0] == r && r.isInsert && r.from == r.to < end <= |ts|
    ensures Pass(ts, rs, r.from, end) + InsertedAt(rs, end) == InsertedAt(rs[1..], r.from) + FlattenAll(r.nodes) + ts[r.from..end]
  {
    hide *;
    FirstInsert(rs, r);
    QuietAfterFirst(rs, end);
    QuietTail(rs, r.from, end);
    PassToken(ts, rs, r.from, end);
    PassQuiet(ts, rs, r.from + 1, end);
    SliceHead(ts, r.from, end);
    AppendNil(InsertedAt(rs[1..], r.from) + FlattenAll(r.nodes) + ts[r.from..end]);
  }

  lemma LastIsRange(ts: seq<Token>, rs: seq<ResolvedOp>, end: nat, r: ResolvedOp)
    requires rs != [] && Sorted(rs) && rs[0] == r && !r.isInsert && r.from < r.to <= end <= |ts|
    ensures Pass(ts, rs, r.from, end) + InsertedAt(rs, end) == InsertedAt(rs[1..], r.from) + FlattenAll(r.nodes) + ts[r.to..end]
  {
    var before, own := InsertedAt(rs[1..], r.from), FlattenAll(r.nodes);
    AppendNil(before);
    assert InsertedAt(rs, r.from) == before;
    assert RangeAt(rs, r.from) == Some(r);
    QuietAfterFirst(rs, end);
    QuietTail(rs, r.from, end);
    assert Quiet(rs, r.to, end);
    hide *;
    PassRange(ts, rs, r.from, end, r);
    PassQuiet(ts, rs, r.to, end);
    Assoc(before, own, ts[r.to..end]);
    AppendNil(before + own + ts[r.to..end]);
  }

  lemma FirstSplice(ts: seq<Token>, rs: seq<ResolvedOp>, end: nat, r: ResolvedOp)
    requires rs != [] && rs[0] == r && end <= |ts| && Descends(rs, end)
    ensures RunSplices(ts[..end], rs, end)
         == RunSplices(ts[..r.from], rs[1..], r.from) + (FlattenAll(r.nodes) + ts[r.to..end])
  {
    var tail := FlattenAll(r.nodes) + ts[r.to..end];
    assert RunSplices(ts[..end], rs, end) == RunSplices(Splice(ts[..end], r), rs[1..], r.from);
    assert Splice(ts[..end], r) == ts[..r.from] + tail by {
      assert ts[..end][..r.from] == ts[..r.from] && ts[..end][r.to..] == ts[r.to..end];
      Assoc(ts[..r.from], FlattenAll(r.nodes), ts[r.to..end]);
    }
    hide *;
    SpliceFrame(ts[..r.from], tail, rs[1..], r.from);
  }

  /** To the left of the first operation only the others act, and none of them reaches past it. */
  lemma PassBeforeFirst(ts: seq<Token>, rs: seq<ResolvedOp>, end: nat, r: ResolvedOp)
    requires rs != [] && rs[0] == r && end <= |ts| && Descends(rs, end)
    ensures Pass(ts, rs, 0, end) == Pass(ts, rs[1..], 0, r.from) + Pass(ts, rs, r.from, end)
  {
    hide FlattenAll, Pass;
    PassDependsOn(ts, rs, rs[1..], 0, r.from);
    DescendsBound(rs[1..], r.from);
    forall p: nat | 0 <= p < r.from && RangeAt(rs, p).Some?
      ensures RangeAt(rs, p).value.to <= r.from
    {
      RangeAtMember(rs[1..], p);
    }
    PassSplit(ts, rs, 0, r.from, end);
  }

  lemma {:induction false} SplicesArePass(ts: seq<Token>, rs: seq<ResolvedOp>, end: nat)
    requires Sorted(rs) && end <= |ts| && Descends(rs, end)
    ensures RunSplices(ts[..end], rs, end) == Pass(ts, rs, 0, end) + InsertedAt(rs, end)
    decreases |rs|
  {
    if rs == [] {
      PassQuiet(ts, rs, 0, end);
    } else {
      var r, rest := rs[0], rs[1..];
      assert Descends(rest, r.from) && Sorted(rest) && InBounds(r, end);
      hide *;
      FirstSplice(ts, rs, end, r);
      SplicesArePass(ts, rest, r.from);
      PassBeforeFirst(ts, rs, end, r);
      PassLastStretch(ts, rs, end, r);
      Regroup(Pass(ts, rest, 0, r.from), InsertedAt(rest, r.from), FlattenAll(r.nodes), ts[r.to..end]);
      Assoc(Pass(ts, rest, 0, r.from), Pass(ts, rs, r.from, end), InsertedAt(rs, end));
    }
  }

  /**
   * Applying the batch one splice at a time, rightmost position first, is one simultaneous
   * edit of the original tokens: no operation ever needs its positions remapped.
   */
  lemma SplicesAreSimultaneous(ts: seq<Token>, rs: seq<ResolvedOp>)
    requires AllCompatible(rs)
    requires forall i :: 0 <= i < |rs| ==> InBounds(rs[i], |ts|)
    ensures Descends(StableSort(rs), |ts|)
    ensures RunSplices(ts, StableSort(rs), |ts|) == Simultaneous(ts, rs)
  {
    var sorted := StableSort(rs);
    StableSortKeeps(rs);
    forall i | 0 <= i < |sorted|
      ensures InBounds(sorted[i], |ts|)
    {
      assert sorted[i] in rs;
    }
    SortedDescends(sorted, |ts|);
    assert ts[..|ts|] == ts;
    SplicesArePass(ts, sorted, |ts|);
    PassDependsOn(ts, sorted, rs, 0, |ts|);
  }
}
