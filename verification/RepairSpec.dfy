/**
 * Whiteboard repair as a function of the loaded board: which elements survive, what each one
 * is rewritten to, and what the board is after a pass.
 *
 * A pass works with the valid reference targets, the keys it fills in and the legality test
 * of the index library (`Pass`); an element's canonical form depends on the board only
 * through these.
 *
 * The index library is a parameter, constrained by `Lawful` alone.
 */
module RepairSpec {
  import opened Prelude
  import opened Strings
  import opened JsValues
  import opened WhiteboardSchema
  import opened EntryMaps

  /** Elements by id, and the ids present in the files container. */
  datatype Board = Board(elements: map<string, Stored>, files: set<string>)

  /** When an image with an absent file may be dropped: never, or for just-deleted files. */
  datatype FilePolicy = ColdStart | NoDrop | JustDeleted(ids: set<string>)

  /** The fractional-index library: legality, and `n` keys after a given one. */
  datatype IndexLibrary = IndexLibrary(valid: ValidIndex, keysAfter: (Option<string>, nat) -> seq<string>)

  /** The library is asked for keys from scratch or above a legal key, and answers with legal ones. */
  ghost predicate Lawful(lib: IndexLibrary) {
    forall max: Option<string>, n: nat :: (max.Some? ==> LegalKey(lib.valid, max.value)) ==> LawfulBatch(lib, max, lib.keysAfter(max, n), n)
  }

  predicate LegalKey(valid: ValidIndex, k: string) {
    k != "" && valid(k)
  }

  predicate LawfulBatch(lib: IndexLibrary, max: Option<string>, keys: seq<string>, n: nat) {
    && |keys| == n
    && StrictlySorted(keys)
    && forall k :: k in keys ==> LegalKey(lib.valid, k) && (max.Some? ==> Less(max.value, k))
  }

  datatype Plan = Plan(writes: map<string, Entry>, drops: seq<string>)

  function Current(b: Board, id: string): Entry {
    if id in b.elements then ReadEntry(b.elements[id]) else map[]
  }

  // ----- the plan -----

  predicate DropsImage(b: Board, e: Entry, policy: FilePolicy) {
    && Get(e, "type") == Str("image")
    && policy.JustDeleted?
    && Get(e, "fileId").Str?
    && Get(e, "fileId").s !in b.files
    && Get(e, "fileId").s in policy.ids
  }

  predicate Survives(b: Board, id: string, policy: FilePolicy) {
    Renderable(Current(b, id)) && !DropsImage(b, Current(b, id), policy)
  }

  function Survivors(b: Board, policy: FilePolicy): set<string> {
    set id | id in b.elements && Survives(b, id, policy)
  }

  /** Survivors that are not tombstoned: the valid reference targets. */
  function Referenceable(b: Board, policy: FilePolicy): set<string> {
    set id | id in b.elements && Survives(b, id, policy) && !Tombstoned(Current(b, id))
  }

  function Indexless(b: Board, policy: FilePolicy, valid: ValidIndex): set<string> {
    set id | id in b.elements && Survives(b, id, policy) && !HasValidIndex(Current(b, id), valid)
  }

  /** The greatest valid index among `ids`. */
  function MaxIndex(b: Board, ids: seq<string>, valid: ValidIndex): Option<string> {
    if ids == [] then None
    else
      var before := MaxIndex(b, ids[..|ids| - 1], valid);
      var e := Current(b, ids[|ids| - 1]);
      if !HasValidIndex(e, valid) then before
      else if before.None? || Less(before.value, e["index"].s) then Some(e["index"].s)
      else before
  }

  /** The key of each indexless element: the `i`-th id in sorted order gets the `i`-th key. */
  function Zip(ids: seq<string>, keys: seq<string>): map<string, string>
    requires |ids| == |keys|
  {
    if ids == [] then map[] else Zip(ids[..|ids| - 1], keys[..|keys| - 1])[ids[|ids| - 1] := keys[|keys| - 1]]
  }

  ghost function IndexFill(b: Board, policy: FilePolicy, lib: IndexLibrary): map<string, string> {
    var ids := SortedKeys(Indexless(b, policy, lib.valid));
    var keys := lib.keysAfter(MaxIndex(b, SortedKeys(Survivors(b, policy)), lib.valid), |ids|);
    if |keys| == |ids| then Zip(ids, keys) else map[]
  }

  function WithIndex(e: Entry, fill: map<string, string>, id: string): Entry {
    if id in fill then e["index" := Str(fill[id])] else e
  }

  /** What a pass works with: the valid reference targets and the keys it fills in. */
  datatype Pass = Pass(refs: set<string>, fill: map<string, string>, valid: ValidIndex)

  ghost function PassOf(b: Board, policy: FilePolicy, lib: IndexLibrary): Pass {
    Pass(Referenceable(b, policy), IndexFill(b, policy, lib), lib.valid)
  }

  /** The canonical form a pass gives to an element. */
  function Canonized(e: Entry, id: string, p: Pass): Entry
    requires Renderable(e)
  {
    WithIndex(Normalize(e, Some(p.refs), p.valid).value, p.fill, id)
  }

  /** The canonical form a surviving element converges to. */
  ghost function Final(b: Board, id: string, policy: FilePolicy, lib: IndexLibrary): Entry
    requires Renderable(Current(b, id))
  {
    Canonized(Current(b, id), id, PassOf(b, policy, lib))
  }

  predicate ObjectEquals(a: Entry, b: Entry) {
    a.Keys == b.Keys && forall field :: field in a ==> FieldEquals(a[field], b[field])
  }

  predicate InScope(scope: Option<set<string>>, id: string) {
    scope.None? || id in scope.value
  }

  ghost function PlanFor(b: Board, scope: Option<set<string>>, policy: FilePolicy, lib: IndexLibrary): Plan {
    Plan(map id | id in Survivors(b, policy) && InScope(scope, id) && !ObjectEquals(Current(b, id), Final(b, id, policy, lib))
           :: Final(b, id, policy, lib),
         SortedKeys(set id | id in b.elements && !Survives(b, id, policy) && InScope(scope, id)))
  }

  // ----- applying a plan -----

  function Applied(b: Board, plan: Plan): Board {
    Board(map id | id in b.elements && id !in plan.drops
            :: if id in plan.writes then YMap(Written(WriteTarget(Some(b.elements[id])), plan.writes[id])) else b.elements[id],
          b.files)
  }

  ghost function Repaired(b: Board, scope: Option<set<string>>, policy: FilePolicy, lib: IndexLibrary): Board {
    Applied(b, PlanFor(b, scope, policy, lib))
  }

  // ----- filled indices -----

  lemma {:induction false} MaxIndexIsMax(b: Board, ids: seq<string>, valid: ValidIndex)
    ensures MaxIndex(b, ids, valid).Some? ==> MaxIndex(b, ids, valid).value != "" && valid(MaxIndex(b, ids, valid).value)
    ensures forall id :: id in ids && HasValidIndex(Current(b, id), valid) ==>
              && MaxIndex(b, ids, valid).Some?
              && !Less(MaxIndex(b, ids, valid).value, Current(b, id)["index"].s)
  {
    if ids != [] {
      var front, last := ids[..|ids| - 1], ids[|ids| - 1];
      MaxIndexIsMax(b, front, valid);
      assert ids == front + [last];
      var max, before := MaxIndex(b, ids, valid), MaxIndex(b, front, valid);
      forall id | id in ids && HasValidIndex(Current(b, id), valid)
        ensures max.Some? && !Less(max.value, Current(b, id)["index"].s)
      {
        var key := Current(b, id)["index"].s;
        LessTotal(max.value, key);
        if id in front && max != before {
          LessTotal(before.value, key);
          if Less(max.value, key) {
            LessTransitive(before.value, max.value, key);
          }
        }
      }
    }
  }

  lemma {:induction false} ZipIsIndexed(ids: seq<string>, keys: seq<string>)
    requires |ids| == |keys| && Distinct(ids)
    ensures Zip(ids, keys).Keys == Elements(ids)
    ensures forall i :: 0 <= i < |ids| ==> ids[i] in Zip(ids, keys) && Zip(ids, keys)[ids[i]] == keys[i]
  {
    if ids != [] {
      ZipIsIndexed(ids[..|ids| - 1], keys[..|keys| - 1]);
      assert ids == ids[..|ids| - 1] + [ids[|ids| - 1]];
    }
  }

  /** The fill pairs the sorted indexless ids with one lawful batch of keys. */
  lemma FillShape(b: Board, policy: FilePolicy, lib: IndexLibrary) returns (ids: seq<string>, keys: seq<string>)
    requires Lawful(lib)
    ensures StrictlySorted(ids) && Elements(ids) == Indexless(b, policy, lib.valid) == IndexFill(b, policy, lib).Keys
    ensures LawfulBatch(lib, MaxIndex(b, SortedKeys(Survivors(b, policy)), lib.valid), keys, |ids|)
    ensures forall i :: 0 <= i < |ids| ==> ids[i] in IndexFill(b, policy, lib) && IndexFill(b, policy, lib)[ids[i]] == keys[i]
  {
    hide Indexless, Survivors, MaxIndex, Zip, SortedKeys;
    ids := SortedKeys(Indexless(b, policy, lib.valid));
    var max := MaxIndex(b, SortedKeys(Survivors(b, policy)), lib.valid);
    keys := lib.keysAfter(max, |ids|);
    MaxIndexIsMax(b, SortedKeys(Survivors(b, policy)), lib.valid);
    assert LawfulBatch(lib, max, keys, |ids|);
    SortedIsDistinct(ids);
    ZipIsIndexed(ids, keys);
  }

  lemma SortedPosition(ids: seq<string>, p: string, q: string) returns (i: nat, j: nat)
    requires StrictlySorted(ids) && p in Elements(ids) && q in Elements(ids) && Less(p, q)
    ensures i < j < |ids| && ids[i] == p && ids[j] == q
  {
    i :| 0 <= i < |ids| && ids[i] == p;
    j :| 0 <= j < |ids| && ids[j] == q;
    LessTotal(p, q);
    LessTotal(p, p);
  }

  /** Filled keys are legal and follow the order of the ids. */
  lemma FillIsOrdered(b: Board, policy: FilePolicy, lib: IndexLibrary)
    requires Lawful(lib)
    ensures var fill := IndexFill(b, policy, lib);
            && fill.Keys == Indexless(b, policy, lib.valid)
            && (forall id :: id in fill ==> fill[id] != "" && lib.valid(fill[id]))
            && (forall p, q :: p in fill && q in fill && Less(p, q) ==> Less(fill[p], fill[q]))
  {
    hide Indexless, IndexFill, MaxIndex, Less, Elements;
    var ids, keys := FillShape(b, policy, lib);
    var fill := IndexFill(b, policy, lib);
    forall id | id in fill
      ensures fill[id] != "" && lib.valid(fill[id])
    {
      var i := PositionOf(ids, id);
      assert keys[i] in keys;
    }
    forall p, q | p in fill && q in fill && Less(p, q)
      ensures Less(fill[p], fill[q])
    {
      var i, j := SortedPosition(ids, p, q);
    }
  }

  lemma PositionOf(ids: seq<string>, id: string) returns (i: nat)
    requires id in Elements(ids)
    ensures i < |ids| && ids[i] == id
  {
    i :| 0 <= i < |ids| && ids[i] == id;
  }

  /** A filled key lies above every valid index in use, so it never collides with one. */
  lemma FillIsAbove(b: Board, policy: FilePolicy, lib: IndexLibrary, id: string, other: string)
    requires Lawful(lib) && id in IndexFill(b, policy, lib)
    requires other in Survivors(b, policy) && HasValidIndex(Current(b, other), lib.valid)
    ensures Less(Current(b, other)["index"].s, IndexFill(b, policy, lib)[id])
  {
    hide Indexless, IndexFill, MaxIndex, Less, Survivors;
    var ids, keys := FillShape(b, policy, lib);
    var i := PositionOf(ids, id);
    assert keys[i] in keys;
    var all := SortedKeys(Survivors(b, policy));
    MaxIndexIsMax(b, all, lib.valid);
    assert other in Elements(all);
    var max, key := MaxIndex(b, all, lib.valid).value, Current(b, other)["index"].s;
    LessTotal(max, key);
    if key != max {
      LessTransitive(key, max, keys[i]);
    }
  }

  // ----- the assumption on the library can be met -----

  /** A bounded alphabet, as the real library's. */
  predicate Alphabetic(k: string) {
    k != "" && forall i :: 0 <= i < |k| ==> '0' <= k[i] <= 'z'
  }

  function Extended(base: string, n: nat): (k: string)
    ensures |k| == |base| + n
  {
    if n == 0 then base else Extended(base, n - 1) + "V"
  }

  function ExtendingLibrary(): IndexLibrary {
    IndexLibrary(Alphabetic, (max: Option<string>, n: nat) => seq(n, i requires 0 <= i < n => Extended(if max.Some? then max.value else "a", i + 1)))
  }

  lemma LongerIsAbove(a: string)
    ensures Less(a, a + "V")
  {
    if a != "" {
      LongerIsAbove(a[1..]);
      assert (a + "V")[1..] == a[1..] + "V";
    }
  }

  lemma {:induction false} ExtendedOrder(base: string, m: nat, n: nat)
    requires m < n
    ensures Less(Extended(base, m), Extended(base, n))
    ensures Alphabetic(base) ==> Alphabetic(Extended(base, n))
  {
    hide Less;
    LongerIsAbove(Extended(base, n - 1));
    if m < n - 1 {
      ExtendedOrder(base, m, n - 1);
      LessTransitive(Extended(base, m), Extended(base, n - 1), Extended(base, n));
    } else if m > 0 {
      ExtendedOrder(base, 0, m);
    }
  }

  lemma ExtendedBatch(base: string, n: nat, keys: seq<string>)
    requires Alphabetic(base) && |keys| == n && forall i :: 0 <= i < n ==> keys[i] == Extended(base, i + 1)
    ensures StrictlySorted(keys) && forall k :: k in keys ==> Alphabetic(k) && Less(base, k)
  {
    hide Less, Extended, Alphabetic;
    forall i, j | 0 <= i < j <= n
      ensures Less(Extended(base, i), Extended(base, j)) && Alphabetic(Extended(base, j))
    {
      ExtendedOrder(base, i, j);
    }
    assert base == Extended(base, 0) by {
      ExtendedNone(base);
    }
  }

  lemma ExtendedNone(base: string)
    ensures Extended(base, 0) == base
  {
  }

  /** Keys over a bounded alphabet can meet the assumption: it asks for keys above legal keys only. */
  lemma BoundedAlphabetIsLawful()
    ensures Lawful(ExtendingLibrary())
  {
    var lib := ExtendingLibrary();
    forall max: Option<string>, n: nat | max.Some? ==> LegalKey(lib.valid, max.value)
      ensures LawfulBatch(lib, max, lib.keysAfter(max, n), n)
    {
      hide Less, Extended, StrictlySorted;
      ExtendedBatch(if max.Some? then max.value else "a", n, lib.keysAfter(max, n));
    }
  }
}
