/**
 * What repair guarantees, over the board functions of `RepairSpec`.
 *
 * One pass: an element in scope ends as an entry that realizes its canonical form
 * (`PassElement`), and such an entry is a fixed point of normalization (`RealizedNormal`).
 *
 * References: a whole-board pass leaves every one intact. A live pass does so if and only if
 * no element outside its scope refers to one it drops (`LivePassIntactIff`), and every run
 * of events with renderable content stays intact (`RunStaysIntact`).
 *
 * Convergence: after a whole-board pass a second one has nothing to do, and the indices it
 * filled in are legal, distinct and above all earlier ones. Over every run all elements can be
 * rendered and have legal indices after each event (`RunStaysIndexed`).
 *
 * Loss: over every run, nothing but a positively dangling image is ever dropped.
 */
module RepairLaws {
  import opened Prelude
  import opened Strings
  import opened JsValues
  import opened WhiteboardSchema
  import opened EntryMaps
  import opened RepairSpec

  // ----- one element -----

  /** `a` agrees with `b` on every field, and has no field that `b` lacks. */
  ghost predicate Realizes(a: Entry, b: Entry) {
    a.Keys <= b.Keys && forall field :: Get(a, field) == Get(b, field)
  }

  /** The canonical form, field by field. */
  lemma CanonizedField(e: Entry, id: string, p: Pass, field: string)
    requires Renderable(e)
    ensures Get(Canonized(e, id, p), field)
         == if field == "index" && id in p.fill then Str(p.fill[id])
            else if field in NormalizedKeys(e, p.valid) then NormalizedField(e, field, Some(p.refs))
            else Undefined
  {
    hide NormalizedField, NormalizedKeys, Renderable;
    NormalizedGet(e, Some(p.refs), p.valid, field);
  }

  /** Where the canonical field has the JSON text of the stored one, it is the stored one. */
  lemma CanonizedOrSame(e: Entry, id: string, p: Pass, field: string)
    requires Renderable(e) && FieldEquals(Get(e, field), Get(Canonized(e, id, p), field))
    ensures Get(e, field) == Get(Canonized(e, id, p), field)
  {
    CanonizedField(e, id, p, field);
    hide NormalizedField, NormalizedKeys, Renderable, Canonized, JsonForm;
    if field in NormalizedKeys(e, p.valid) {
      if FieldEquals(Get(e, field), NormalizedField(e, field, Some(p.refs))) {
        NormalizedOrSame(e, field, Some(p.refs));
      }
    }
  }

  /** An element that is not rewritten is canonical already. */
  lemma UnwrittenIsFinal(e: Entry, id: string, p: Pass)
    requires Renderable(e) && ObjectEquals(e, Canonized(e, id, p))
    ensures e == Canonized(e, id, p)
  {
    var final := Canonized(e, id, p);
    hide Canonized, FieldEquals, Renderable;
    forall field | field in e
      ensures e[field] == final[field]
    {
      CanonizedOrSame(e, id, p, field);
    }
  }

  /** The canonical form keeps every field but the index, and has none of a reserved name. */
  lemma CanonizedNames(e: Entry, id: string, p: Pass, field: string)
    requires Renderable(e)
    ensures field in e && field !in Canonized(e, id, p) ==> field == "index"
    ensures field in Canonized(e, id, p) ==> field in e || field in {"version", "versionNonce", "index"}
    ensures "__proto__" !in Canonized(e, id, p)
  {
    Roles();
    InheritedNames();
    FinalKeys(e, id, p);
    assert "__proto__" in RESERVED_KEYS;
    hide NormalizedField, INHERITED, RoleOf;
  }

  /** Nothing of a rewritten element is left behind under an inherited name. */
  lemma WrittenGet(e: Entry, target: Entry, id: string, p: Pass, field: string)
    requires Renderable(e) && (target == e || target == map[])
    ensures var final := Canonized(e, id, p);
            && (field in Written(target, final) ==> field in final)
            && (Differs(target, final, field) ==> Get(Written(target, final), field) == Get(final, field))
            && (!Differs(target, final, field) ==>
                  Get(Written(target, final), field) == Get(target, field) && FieldEquals(Get(target, field), Get(final, field)))
  {
    InheritedNames();
    CanonizedNames(e, id, p, field);
    hide Canonized, Renderable, INHERITED, JsonForm;
    WrittenAt(target, Canonized(e, id, p), field);
    hide Written;
  }

  lemma OnlyNothingEqualsNothing(v: Val)
    ensures FieldEquals(Undefined, v) ==> v == Undefined
  {
  }

  /** A rewritten element, in place or as a fresh map, has exactly the canonical fields. */
  lemma WrittenIsFinal(e: Entry, target: Entry, id: string, p: Pass)
    requires Renderable(e) && (target == e || target == map[])
    ensures Realizes(Written(target, Canonized(e, id, p)), Canonized(e, id, p))
  {
    var final := Canonized(e, id, p);
    hide Canonized, FieldEquals, Renderable, Written, Differs;
    var out := Written(target, final);
    forall field
      ensures field in out ==> field in final
      ensures Get(out, field) == Get(final, field)
    {
      WrittenGet(e, target, id, p, field);
      if target == e && !Differs(e, final, field) {
        CanonizedOrSame(e, id, p, field);
      } else if !Differs(target, final, field) {
        OnlyNothingEqualsNothing(Get(final, field));
      }
    }
  }

  /** Apart from the index, the canonical form is the normalized entry. */
  lemma RealizedGet(e: Entry, id: string, p: Pass, r: Entry, field: string)
    requires Renderable(e) && Realizes(r, Canonized(e, id, p)) && field != "index"
    ensures Get(r, field) == Get(Normalize(e, Some(p.refs), p.valid).value, field)
  {
    hide Normalize, Renderable;
  }

  lemma RenderableBy(n: Entry, r: Entry)
    requires Renderable(n) && r.Keys <= n.Keys + {"index"}
    requires Get(r, "id") == Get(n, "id") && Get(r, "type") == Get(n, "type")
    ensures Renderable(r)
  {
    assert "index" !in RESERVED_KEYS by {
      assert |"index"| == 5 && |"__proto__"| == 9 && |"constructor"| == 11 && |"prototype"| == 9;
    }
  }

  lemma SameFlags(n: Entry, r: Entry)
    requires Get(r, "isDeleted") == Get(n, "isDeleted")
    ensures Tombstoned(r) <==> Tombstoned(n)
  {
  }

  lemma CanonizedKeys(e: Entry, id: string, p: Pass, r: Entry)
    requires Renderable(e) && Realizes(r, Canonized(e, id, p))
    ensures r.Keys <= Normalize(e, Some(p.refs), p.valid).value.Keys + {"index"}
  {
    hide Normalize, Renderable;
  }

  /** An entry that realizes the canonical form is legal, and keeps its identity, kind, file and flags. */
  lemma RealizedFields(e: Entry, id: string, p: Pass, r: Entry)
    requires Renderable(e) && Realizes(r, Canonized(e, id, p))
    ensures Renderable(r)
    ensures forall field :: field in {"id", "type", "fileId"} ==> Get(r, field) == Get(e, field)
    ensures Tombstoned(r) <==> Tombstoned(e)
    ensures CoerceVersion(Get(r, "version")) == CoerceVersion(Get(e, "version"))
  {
    hide *;
    Roles();
    CanonizedKeys(e, id, p, r);
    var n := Normalize(e, Some(p.refs), p.valid).value;
    NormalizeKeeps(e, Some(p.refs), p.valid);
    RealizedGet(e, id, p, r, "id");
    RealizedGet(e, id, p, r, "type");
    RealizedGet(e, id, p, r, "fileId");
    RealizedGet(e, id, p, r, "isDeleted");
    RealizedGet(e, id, p, r, "version");
    RenderableBy(n, r);
    SameFlags(n, r);
  }

  /** A pass fills exactly the entries without a legal index, with legal keys. */
  predicate Fills(e: Entry, id: string, p: Pass) {
    (id in p.fill <==> !HasValidIndex(e, p.valid)) && (id in p.fill ==> p.fill[id] != "" && p.valid(p.fill[id]))
  }

  lemma RealizedIndex(e: Entry, id: string, p: Pass, r: Entry)
    requires Renderable(e) && Fills(e, id, p) && Realizes(r, Canonized(e, id, p))
    ensures HasValidIndex(r, p.valid)
    ensures r["index"] == if HasValidIndex(e, p.valid) then e["index"] else Str(p.fill[id])
  {
    NormalizeKeeps(e, Some(p.refs), p.valid);
    hide Normalize, RoleOf, Renderable;
    assert Get(r, "index") == Get(Canonized(e, id, p), "index");
  }

  lemma RealizedRefs(e: Entry, id: string, p: Pass, r: Entry)
    requires Renderable(e) && Realizes(r, Canonized(e, id, p))
    ensures RefsOf(r) <= p.refs
  {
    hide *;
    Roles();
    RealizedGet(e, id, p, r, "containerId");
    RealizedGet(e, id, p, r, "frameId");
    RealizedGet(e, id, p, r, "boundElements");
    NormalizePrunes(e, p.refs, p.valid);
    SameRefs(r, Normalize(e, Some(p.refs), p.valid).value);
  }

  lemma SameRefs(a: Entry, b: Entry)
    requires forall field :: field in {"containerId", "frameId", "boundElements"} ==> Get(a, field) == Get(b, field)
    ensures RefsOf(a) == RefsOf(b)
  {
  }

  /** An entry that realizes the canonical form is a fixed point of normalization. */
  lemma RealizedNormal(e: Entry, id: string, p: Pass, r: Entry)
    requires Renderable(e) && Fills(e, id, p) && Realizes(r, Canonized(e, id, p))
    ensures Renderable(r) && Normalize(r, Some(p.refs), p.valid) == Some(r)
  {
    hide NormalizedField, Renderable, Canonized, CoerceVersion, HasValidIndex, RoleOf, Fills;
    RealizedFields(e, id, p, r);
    RealizedIndex(e, id, p, r);
    VersionsDefined(e, id, p, r);
    Roles();
    assert NormalizedKeys(r, p.valid) == r.Keys;
    var again := Normalize(r, Some(p.refs), p.valid).value;
    forall field | field in r
      ensures again[field] == r[field]
    {
      RealizedField(e, id, p, r, field);
    }
    assert again == r;
  }

  lemma RealizedField(e: Entry, id: string, p: Pass, r: Entry, field: string)
    requires Renderable(e) && Realizes(r, Canonized(e, id, p)) && field in r
    requires Renderable(r) && Get(r, "id") == Get(e, "id")
    requires CoerceVersion(Get(r, "version")) == CoerceVersion(Get(e, "version"))
    ensures NormalizedField(r, field, Some(p.refs)) == r[field]
  {
    hide NormalizedField, NormalizedKeys, Renderable, Canonized, CoerceVersion, RoleOf;
    if field == "index" {
      Roles();
      PlainStays(r, field, Some(p.refs));
    } else {
      CanonizedField(e, id, p, field);
      FinalKeys(e, id, p);
      NormalizedTwice(e, r, field, Some(p.refs));
    }
  }

  lemma PlainStays(e: Entry, field: string, refs: Option<set<string>>)
    requires Renderable(e) && RoleOf(field) == PlainField
    ensures NormalizedField(e, field, refs) == Get(e, field)
  {
  }

  lemma FinalKeys(e: Entry, id: string, p: Pass)
    requires Renderable(e)
    ensures Canonized(e, id, p).Keys <= NormalizedKeys(e, p.valid) + {"index"}
  {
    hide NormalizedKeys, NormalizedField, Renderable;
  }

  lemma VersionsDefined(e: Entry, id: string, p: Pass, r: Entry)
    requires Renderable(e) && Realizes(r, Canonized(e, id, p))
    ensures {"version", "versionNonce"} <= r.Keys
  {
    hide *;
    Roles();
    RealizedGet(e, id, p, r, "version");
    RealizedGet(e, id, p, r, "versionNonce");
    NormalizedVersionsAreNumbers(e, Some(p.refs), p.valid);
    DefinedIsPresent(r, "version");
    DefinedIsPresent(r, "versionNonce");
  }

  lemma DefinedIsPresent(e: Entry, field: string)
    requires Get(e, field).Num?
    ensures field in e
  {
  }

  // ----- one pass -----

  /** Survivors are legal, and a lawful pass fills just those of them that need a key. */
  lemma PassFits(b: Board, policy: FilePolicy, lib: IndexLibrary, id: string)
    requires Lawful(lib) && id in Survivors(b, policy)
    ensures Renderable(Current(b, id)) && Fills(Current(b, id), id, PassOf(b, policy, lib))
  {
    hide IndexFill, Renderable, Lawful, HasValidIndex, Current, Less, Indexless, Survivors, Referenceable, LegalKey;
    FillIsOrdered(b, policy, lib);
    SurvivorNeeds(b, policy, lib.valid, id);
  }

  lemma SurvivorNeeds(b: Board, policy: FilePolicy, valid: ValidIndex, id: string)
    requires id in Survivors(b, policy)
    ensures Renderable(Current(b, id)) && (id in Indexless(b, policy, valid) <==> !HasValidIndex(Current(b, id), valid))
  {
    hide Renderable, HasValidIndex, Current, DropsImage;
  }

  /** What a pass does to each element. */
  lemma PassElement(b: Board, scope: Option<set<string>>, policy: FilePolicy, lib: IndexLibrary, id: string)
    requires id in b.elements
    ensures var after := Repaired(b, scope, policy, lib);
            && (!InScope(scope, id) ==> id in after.elements && after.elements[id] == b.elements[id])
            && (InScope(scope, id) && id !in Survivors(b, policy) ==> id !in after.elements)
            && (InScope(scope, id) && id in Survivors(b, policy) ==>
                  && Renderable(Current(b, id)) && id in after.elements
                  && Realizes(Current(after, id), Canonized(Current(b, id), id, PassOf(b, policy, lib))))
  {
    hide *;
    PlanOn(b, scope, policy, lib, id);
    PassOn(b, scope, policy, lib, id);
    if id in Survivors(b, policy) && InScope(scope, id) {
      var e, p := Current(b, id), PassOf(b, policy, lib);
      if ObjectEquals(e, Canonized(e, id, p)) {
        UnwrittenIsFinal(e, id, p);
        SelfRealizes(e);
      } else {
        TargetOf(b, id);
        WrittenIsFinal(e, WriteTarget(Some(b.elements[id])), id, p);
      }
    }
  }

  /** What the plan of a pass says of one element. */
  lemma PlanOn(b: Board, scope: Option<set<string>>, policy: FilePolicy, lib: IndexLibrary, id: string)
    requires id in b.elements
    ensures var plan := PlanFor(b, scope, policy, lib);
            && (id in plan.drops <==> id !in Survivors(b, policy) && InScope(scope, id))
            && (id in Survivors(b, policy) ==> Renderable(Current(b, id)))
            && (id in plan.writes <==> (id in Survivors(b, policy) && InScope(scope, id)
                  && !ObjectEquals(Current(b, id), Canonized(Current(b, id), id, PassOf(b, policy, lib)))))
            && (id in plan.writes ==> plan.writes[id] == Canonized(Current(b, id), id, PassOf(b, policy, lib)))
  {
    hide Canonized, PassOf, ObjectEquals, Renderable, DropsImage, Current;
    var plan := PlanFor(b, scope, policy, lib);
    assert id in plan.drops <==> id in Elements(plan.drops);
  }

  /** What applying it makes of the element. */
  lemma PassOn(b: Board, scope: Option<set<string>>, policy: FilePolicy, lib: IndexLibrary, id: string)
    requires id in b.elements
    ensures var plan, after := PlanFor(b, scope, policy, lib), Repaired(b, scope, policy, lib);
            && (id in after.elements <==> id !in plan.drops)
            && (id in after.elements && id !in plan.writes ==> after.elements[id] == b.elements[id] && Current(after, id) == Current(b, id))
            && (id in after.elements && id in plan.writes ==>
                  Current(after, id) == Written(WriteTarget(Some(b.elements[id])), plan.writes[id]))
  {
    hide PlanFor, Written, WriteTarget;
  }

  lemma TargetOf(b: Board, id: string)
    requires id in b.elements
    ensures WriteTarget(Some(b.elements[id])) == Current(b, id) || WriteTarget(Some(b.elements[id])) == map[]
  {
  }

  lemma SelfRealizes(e: Entry)
    ensures Realizes(e, e)
  {
  }

  lemma PassAddsNothing(b: Board, scope: Option<set<string>>, policy: FilePolicy, lib: IndexLibrary)
    ensures Repaired(b, scope, policy, lib).elements.Keys <= b.elements.Keys
    ensures Repaired(b, scope, policy, lib).files == b.files
  {
    hide PlanFor;
  }

  /** After a pass the valid reference targets are those the pass worked with. */
  lemma PassKeepsTargets(b: Board, scope: Option<set<string>>, policy: FilePolicy, lib: IndexLibrary)
    requires Lawful(lib) && (scope.None? || !policy.JustDeleted?)
    ensures Referenceable(Repaired(b, scope, policy, lib), NoDrop) == Referenceable(b, policy)
  {
    var after := Repaired(b, scope, policy, lib);
    PassAddsNothing(b, scope, policy, lib);
    forall id
      ensures id in Referenceable(after, NoDrop) <==> id in Referenceable(b, policy)
    {
      if id in b.elements {
        PassElement(b, scope, policy, lib, id);
        hide Canonized, IndexFill, Referenceable, Repaired, Realizes, Renderable, Lawful;
        if InScope(scope, id) && id in Survivors(b, policy) {
          RealizedFields(Current(b, id), id, PassOf(b, policy, lib), Current(after, id));
        }
      }
    }
  }

  // ----- reference integrity -----

  /** No element refers to an absent, tombstoned or unrenderable element. */
  predicate Intact(b: Board) {
    forall id :: id in b.elements ==> RefsOf(Current(b, id)) <= Referenceable(b, NoDrop)
  }

  /** A whole-board pass leaves every reference intact, whatever the board was. */
  lemma WholePassIsIntact(b: Board, policy: FilePolicy, lib: IndexLibrary)
    requires Lawful(lib)
    ensures Intact(Repaired(b, None, policy, lib))
  {
    var after := Repaired(b, None, policy, lib);
    PassAddsNothing(b, None, policy, lib);
    PassKeepsTargets(b, None, policy, lib);
    hide Referenceable, Repaired, Canonized, IndexFill, Realizes, RefsOf, Lawful;
    forall id | id in after.elements
      ensures RefsOf(Current(after, id)) <= Referenceable(after, NoDrop)
    {
      PassElement(b, None, policy, lib, id);
      RealizedRefs(Current(b, id), id, PassOf(b, policy, lib), Current(after, id));
    }
  }

  // ----- the scoped pass of the live observer -----

  /** Removed as a reference target: absent, not a proper entry, or tombstoned. */
  predicate IsRemovedTarget(b: Board, id: string) {
    id !in b.elements || !b.elements[id].YMap? || Tombstoned(b.elements[id].fields)
  }

  function RemovedAmong(b: Board, changed: set<string>): set<string> {
    set id | id in changed && IsRemovedTarget(b, id)
  }

  /** Elements that refer to a removed one, other than the removed ones. */
  function ReferrersOf(b: Board, removed: set<string>): set<string> {
    set id | id in b.elements && id !in removed && RefsOf(Current(b, id)) * removed != {}
  }

  function LiveScope(b: Board, changed: set<string>): set<string> {
    changed + ReferrersOf(b, RemovedAmong(b, changed))
  }

  /** The element observer: a pass over the changed ids and the referrers of removed ones. */
  ghost function ElementsPass(b: Board, changed: set<string>, lib: IndexLibrary): Board {
    if changed == {} then b else Repaired(b, Some(LiveScope(b, changed)), NoDrop, lib)
  }

  /** `now` differs from `before` at most on the ids in `changed`. */
  predicate ChangedOnly(before: Board, now: Board, changed: set<string>) {
    forall id :: id in before.elements.Keys + now.elements.Keys && id !in changed ==>
      id in before.elements && id in now.elements && before.elements[id] == now.elements[id]
  }

  /** A changed element that repair drops although it is neither absent nor tombstoned. */
  predicate DroppedUnseen(b: Board, changed: set<string>, id: string) {
    id in changed && !IsRemovedTarget(b, id) && !Renderable(Current(b, id))
  }

  /** An element outside the scope that refers to one the pass drops. */
  predicate LeftDangling(b: Board, changed: set<string>) {
    exists id :: id in b.elements && id !in LiveScope(b, changed) && KeepsDropped(b, changed, id)
  }

  predicate KeepsDropped(b: Board, changed: set<string>, id: string) {
    exists target :: target in RefsOf(Current(b, id)) && DroppedUnseen(b, changed, target)
  }

  /** Every entry the transaction leaves under a changed id is renderable. */
  predicate ValidChanges(b: Board, changed: set<string>) {
    forall id :: id in changed && id in b.elements ==> Renderable(Current(b, id))
  }

  /** A reference of an element outside the scope is a valid target, unless its target is dropped unseen. */
  lemma UnscopedRef(before: Board, now: Board, changed: set<string>, id: string, target: string)
    requires Intact(before) && ChangedOnly(before, now, changed)
    requires id in now.elements && id !in LiveScope(now, changed) && target in RefsOf(Current(now, id))
    ensures target in Referenceable(now, NoDrop) <==> !DroppedUnseen(now, changed, target)
  {
    hide RefsOf, Renderable;
    assert before.elements[id] == now.elements[id];
    assert Current(before, id) == Current(now, id);
    assert target in Referenceable(before, NoDrop);
    if target in changed {
      var removed := RemovedAmong(now, changed);
      assert target in removed ==> target in RefsOf(Current(now, id)) * removed;
      assert target in removed ==> id in ReferrersOf(now, removed);
    } else {
      assert before.elements[target] == now.elements[target];
    }
  }

  /**
   * The scoped pass restores reference integrity after a transaction exactly when no element
   * outside its scope refers to a changed element that the pass drops.
   */
  lemma LivePassIntactIff(before: Board, now: Board, changed: set<string>, lib: IndexLibrary)
    requires Lawful(lib) && Intact(before) && ChangedOnly(before, now, changed)
    ensures Intact(ElementsPass(now, changed, lib)) <==> !LeftDangling(now, changed)
  {
    if changed == {} {
      assert now.elements == before.elements;
      assert forall id :: Current(now, id) == Current(before, id);
      assert Referenceable(now, NoDrop) == Referenceable(before, NoDrop);
      assert !LeftDangling(now, changed);
    } else {
      var scope, after := Some(LiveScope(now, changed)), ElementsPass(now, changed, lib);
      PassAddsNothing(now, scope, NoDrop, lib);
      PassKeepsTargets(now, scope, NoDrop, lib);
      hide Repaired, RefsOf, Referenceable, Renderable, Lawful, Canonized, IndexFill, LiveScope, ChangedOnly;
      forall id | id in now.elements
        ensures id in scope.value && id in after.elements ==> RefsOf(Current(after, id)) <= Referenceable(now, NoDrop)
        ensures id !in scope.value ==> id in after.elements && Current(after, id) == Current(now, id)
        ensures id !in scope.value ==> (RefsOf(Current(now, id)) <= Referenceable(now, NoDrop) <==> !KeepsDropped(now, changed, id))
      {
        PassElement(now, scope, NoDrop, lib, id);
        if id !in scope.value {
          forall target | target in RefsOf(Current(now, id))
            ensures target in Referenceable(now, NoDrop) <==> !DroppedUnseen(now, changed, target)
          {
            UnscopedRef(before, now, changed, id, target);
          }
        } else if id in after.elements {
          RealizedRefs(Current(now, id), id, PassOf(now, NoDrop, lib), Current(after, id));
        }
      }
    }
  }

  /** In particular a transaction of renderable elements never leaves a dangling reference. */
  lemma LivePassKeepsIntact(before: Board, now: Board, changed: set<string>, lib: IndexLibrary)
    requires Lawful(lib) && Intact(before) && ChangedOnly(before, now, changed) && ValidChanges(now, changed)
    ensures Intact(ElementsPass(now, changed, lib))
  {
    LivePassIntactIff(before, now, changed, lib);
    hide Renderable, RefsOf, LiveScope;
    assert forall target :: !DroppedUnseen(now, changed, target);
  }

  /** Without renderable changes it can: once the container of `t` is unrenderable, `t` keeps naming it. */
  lemma BadContainerDangles(lib: IndexLibrary, f: string, t: string, frame: Entry, bad: Entry, child: Entry)
    requires Lawful(lib) && f != t
    requires Renderable(frame) && Renderable(child) && !Renderable(bad)
    requires !Tombstoned(frame) && !Tombstoned(child) && !Tombstoned(bad)
    requires RefsOf(frame) == {} && RefsOf(child) == {f}
    ensures Intact(Board(map[f := YMap(frame), t := YMap(child)], {}))
    ensures !Intact(ElementsPass(Board(map[f := YMap(bad), t := YMap(child)], {}), {f}, lib))
  {
    hide RefsOf, Renderable, Tombstoned, Lawful, ElementsPass;
    var before, now := Board(map[f := YMap(frame), t := YMap(child)], {}), Board(map[f := YMap(bad), t := YMap(child)], {});
    assert Referenceable(before, NoDrop) == {f, t};
    LivePassIntactIff(before, now, {f}, lib);
    assert DroppedUnseen(now, {f}, f);
    assert KeepsDropped(now, {f}, t);
    assert t !in LiveScope(now, {f});
  }

  const FRAME: Entry := map["id" := Str("f"), "type" := Str("frame")]
  const TYPELESS: Entry := map["id" := Str("f")]
  const FRAMED_TEXT: Entry := map["id" := Str("t"), "type" := Str("text"), "frameId" := Str("f")]

  lemma FramedEntries()
    ensures Renderable(FRAME) && Renderable(FRAMED_TEXT) && !Renderable(TYPELESS)
    ensures !Tombstoned(FRAME) && !Tombstoned(FRAMED_TEXT) && !Tombstoned(TYPELESS)
    ensures RefsOf(FRAME) == {} && RefsOf(FRAMED_TEXT) == {"f"}
  {
    Roles();
    UnreservedKeys();
    Whitelisted("frame");
    Whitelisted("text");
    hide RoleOf;
    assert "id" != "isDeleted" && "type" != "isDeleted" && "frameId" != "isDeleted";
  }

  /** On a board with a text in a frame, a transaction that takes the frame's type away leaves the text dangling. */
  lemma InvalidChangeDangles(lib: IndexLibrary)
    requires Lawful(lib)
    ensures var before := Board(map["f" := YMap(FRAME), "t" := YMap(FRAMED_TEXT)], {});
            var now := Board(map["f" := YMap(TYPELESS), "t" := YMap(FRAMED_TEXT)], {});
            && Intact(before)
            && Legal(before, Transaction(now, {"f"}, false))
            && !Intact(Observed(before, Transaction(now, {"f"}, false), lib))
  {
    hide Intact, Lawful, ElementsPass, FRAME, TYPELESS, FRAMED_TEXT;
    FramedEntries();
    BadContainerDangles(lib, "f", "t", FRAME, TYPELESS, FRAMED_TEXT);
  }

  lemma Whitelisted(kind: string)
    requires kind == "frame" || kind == "text"
    ensures kind in ELEMENT_TYPES
  {
  }

  lemma UnreservedKeys()
    ensures {"id", "type", "frameId"} !! RESERVED_KEYS
  {
    assert |"id"| == 2 && |"type"| == 4 && |"frameId"| == 7;
    assert |"__proto__"| == 9 && |"constructor"| == 11 && |"prototype"| == 9;
  }

  // ----- one whole-board pass reaches a fixed point -----

  lemma WholePassElement(b: Board, policy: FilePolicy, lib: IndexLibrary, id: string)
    requires Lawful(lib) && id in Repaired(b, None, policy, lib).elements
    ensures id in Survivors(b, policy) && Renderable(Current(b, id))
    ensures Realizes(Current(Repaired(b, None, policy, lib), id), Canonized(Current(b, id), id, PassOf(b, policy, lib)))
    ensures Survives(Repaired(b, None, policy, lib), id, policy)
  {
    hide Repaired, Canonized, PassOf, Realizes, Renderable, Lawful, Survivors, Survives, Current;
    var after := Repaired(b, None, policy, lib);
    PassAddsNothing(b, None, policy, lib);
    PassElement(b, None, policy, lib, id);
    RealizedFields(Current(b, id), id, PassOf(b, policy, lib), Current(after, id));
    SurvivesAlike(b, after, policy, id);
  }

  lemma SurvivesAlike(b: Board, after: Board, policy: FilePolicy, id: string)
    requires id in Survivors(b, policy) && id in after.elements && after.files == b.files && Renderable(Current(after, id))
    requires forall field :: field in {"id", "type", "fileId"} ==> Get(Current(after, id), field) == Get(Current(b, id), field)
    ensures Survives(after, id, policy)
  {
    hide Renderable, Current, Get;
  }

  lemma WholePassTargets(b: Board, policy: FilePolicy, lib: IndexLibrary)
    requires Lawful(lib)
    ensures Referenceable(Repaired(b, None, policy, lib), policy) == Referenceable(b, policy)
    ensures Indexless(Repaired(b, None, policy, lib), policy, lib.valid) == {}
  {
    var after := Repaired(b, None, policy, lib);
    PassAddsNothing(b, None, policy, lib);
    hide Repaired, Canonized, IndexFill, Realizes, Lawful, Current, HasValidIndex, Survives;
    forall id | id in after.elements
      ensures Survives(after, id, policy) && HasValidIndex(Current(after, id), lib.valid)
      ensures Tombstoned(Current(after, id)) <==> Tombstoned(Current(b, id))
      ensures id in Survivors(b, policy)
    {
      WholePassElement(b, policy, lib, id);
      RealizedFields(Current(b, id), id, PassOf(b, policy, lib), Current(after, id));
      PassFits(b, policy, lib, id);
      RealizedIndex(Current(b, id), id, PassOf(b, policy, lib), Current(after, id));
    }
    forall id | id in Survivors(b, policy)
      ensures id in after.elements
    {
      PassElement(b, None, policy, lib, id);
    }
  }

  lemma NothingToFill(b: Board, policy: FilePolicy, lib: IndexLibrary)
    requires Lawful(lib) && Indexless(b, policy, lib.valid) == {}
    ensures IndexFill(b, policy, lib) == map[]
  {
    hide *;
    FillIsOrdered(b, policy, lib);
    assert IndexFill(b, policy, lib).Keys == {};
  }

  /** After a whole-board pass an element is its own canonical form. */
  lemma WholePassElementIsFinal(b: Board, policy: FilePolicy, lib: IndexLibrary, id: string)
    requires Lawful(lib) && id in Repaired(b, None, policy, lib).elements
    ensures var after := Repaired(b, None, policy, lib);
            id in Survivors(after, policy) && Renderable(Current(after, id)) && Final(after, id, policy, lib) == Current(after, id)
  {
    var after := Repaired(b, None, policy, lib);
    assert PassOf(b, policy, lib).refs == Referenceable(b, policy) && PassOf(b, policy, lib).valid == lib.valid;
    hide *;
    WholePassElement(b, policy, lib, id);
    WholePassTargets(b, policy, lib);
    NothingToFill(after, policy, lib);
    PassFits(b, policy, lib, id);
    RealizedNormal(Current(b, id), id, PassOf(b, policy, lib), Current(after, id));
    SurvivorIsRenderable(after, policy, id);
    FinalUnfilled(after, policy, lib, id);
  }

  lemma SurvivorIsRenderable(b: Board, policy: FilePolicy, id: string)
    requires id in b.elements && Survives(b, id, policy)
    ensures id in Survivors(b, policy) && Renderable(Current(b, id))
  {
    hide Renderable, DropsImage, Current;
  }

  lemma FinalUnfilled(b: Board, policy: FilePolicy, lib: IndexLibrary, id: string)
    requires Renderable(Current(b, id)) && IndexFill(b, policy, lib) == map[]
    ensures Final(b, id, policy, lib) == Normalize(Current(b, id), Some(Referenceable(b, policy)), lib.valid).value
  {
    hide Renderable, Normalize, Referenceable, IndexFill, Current;
    var e, p := Current(b, id), PassOf(b, policy, lib);
    assert p.fill == map[] && id !in p.fill;
    assert Canonized(e, id, p) == WithIndex(Normalize(e, Some(p.refs), p.valid).value, p.fill, id);
    assert Final(b, id, policy, lib) == Canonized(e, id, p);
  }

  /** After a whole-board pass there is nothing left to repair: a second plan is empty. */
  lemma WholePassIsFixpoint(b: Board, policy: FilePolicy, lib: IndexLibrary)
    requires Lawful(lib)
    ensures PlanFor(Repaired(b, None, policy, lib), None, policy, lib) == Plan(map[], [])
    ensures Repaired(Repaired(b, None, policy, lib), None, policy, lib) == Repaired(b, None, policy, lib)
  {
    hide *;
    var after := Repaired(b, None, policy, lib);
    forall id | id in after.elements
      ensures id in Survivors(after, policy) && Renderable(Current(after, id)) && Final(after, id, policy, lib) == Current(after, id)
    {
      WholePassElementIsFinal(b, policy, lib, id);
    }
    EmptyPlan(after, policy, lib);
  }

  lemma EmptyPlan(b: Board, policy: FilePolicy, lib: IndexLibrary)
    requires forall id :: id in b.elements ==>
               id in Survivors(b, policy) && Renderable(Current(b, id)) && Final(b, id, policy, lib) == Current(b, id)
    ensures PlanFor(b, None, policy, lib) == Plan(map[], [])
    ensures Repaired(b, None, policy, lib) == b
  {
    hide Canonized, IndexFill, Referenceable, Survives, Current, Renderable;
    var plan := PlanFor(b, None, policy, lib);
    assert forall id :: id in b.elements ==> Survives(b, id, policy);
    assert forall id :: id in b.elements ==> ObjectEquals(Current(b, id), Final(b, id, policy, lib));
    assert plan.writes == map[];
    assert Elements(plan.drops) == {};
    NoElements(plan.drops);
    assert Applied(b, plan).elements == b.elements;
  }

  /** The order-bearing index of an element of the repaired board. */
  function IndexOf(b: Board, id: string): string
    requires id in b.elements && Get(Current(b, id), "index").Str?
  {
    Current(b, id)["index"].s
  }

  /**
   * After a whole-board pass every element has a legal index; indices that were legal are
   * kept, filled ones lie above all of those and follow the order of the ids.
   */
  lemma WholePassIndices(b: Board, policy: FilePolicy, lib: IndexLibrary, p: string, q: string)
    requires Lawful(lib)
    requires p in Repaired(b, None, policy, lib).elements && q in Repaired(b, None, policy, lib).elements
    ensures var after := Repaired(b, None, policy, lib);
            && HasValidIndex(Current(after, p), lib.valid) && HasValidIndex(Current(after, q), lib.valid)
            && (HasValidIndex(Current(b, p), lib.valid) ==> IndexOf(after, p) == IndexOf(b, p))
            && (HasValidIndex(Current(b, p), lib.valid) && !HasValidIndex(Current(b, q), lib.valid) ==>
                  Less(IndexOf(after, p), IndexOf(after, q)))
            && (!HasValidIndex(Current(b, p), lib.valid) && !HasValidIndex(Current(b, q), lib.valid) && Less(p, q) ==>
                  Less(IndexOf(after, p), IndexOf(after, q)))
  {
    var after := Repaired(b, None, policy, lib);
    hide Repaired, Canonized, IndexFill, Referenceable, Realizes, Lawful, Survives, Indexless, Less;
    WholePassElement(b, policy, lib, p);
    WholePassElement(b, policy, lib, q);
    PassFits(b, policy, lib, p);
    RealizedIndex(Current(b, p), p, PassOf(b, policy, lib), Current(after, p));
    PassFits(b, policy, lib, q);
    RealizedIndex(Current(b, q), q, PassOf(b, policy, lib), Current(after, q));
    FillIsOrdered(b, policy, lib);
    if HasValidIndex(Current(b, p), lib.valid) && !HasValidIndex(Current(b, q), lib.valid) {
      FillIsAbove(b, policy, lib, q, p);
    }
  }

  // ----- runs of observed transactions -----

  /** A transaction and the observer passes after it, or a load of the board. */
  datatype Event =
    | Transaction(now: Board, changed: set<string>, filesFirst: bool)
    | Load

  function DeletedFiles(b: Board, now: Board): set<string> {
    b.files - now.files
  }

  /** The file observer: a whole-board pass, only when files were deleted. */
  ghost function FilesPass(b: Board, deleted: set<string>, lib: IndexLibrary): Board {
    if deleted == {} then b else Repaired(b, None, JustDeleted(deleted), lib)
  }

  ghost function Observed(b: Board, ev: Event, lib: IndexLibrary): Board {
    match ev
    case Load => Repaired(b, None, ColdStart, lib)
    case Transaction(now, changed, filesFirst) =>
      var deleted := DeletedFiles(b, now);
      if filesFirst then ElementsPass(FilesPass(now, deleted, lib), changed, lib)
      else FilesPass(ElementsPass(now, changed, lib), deleted, lib)
  }

  /** The board after a run of events. */
  ghost function RunOf(b: Board, evs: seq<Event>, lib: IndexLibrary): Board {
    if evs == [] then b else Observed(RunOf(b, evs[..|evs| - 1], lib), evs[|evs| - 1], lib)
  }

  lemma RunGoesOn(b: Board, evs: seq<Event>, ev: Event, lib: IndexLibrary)
    ensures RunOf(b, [], lib) == b && RunOf(b, evs + [ev], lib) == Observed(RunOf(b, evs, lib), ev, lib)
  {
    hide Observed;
    assert (evs + [ev])[..|evs + [ev]| - 1] == evs;
  }

  predicate Legal(b: Board, ev: Event) {
    ev.Transaction? ==> ChangedOnly(b, ev.now, ev.changed)
  }

  predicate KeepsValid(ev: Event) {
    ev.Transaction? ==> ValidChanges(ev.now, ev.changed)
  }

  ghost predicate LegalRun(b: Board, evs: seq<Event>, lib: IndexLibrary) {
    forall k :: 0 <= k < |evs| ==> Legal(RunOf(b, evs[..k], lib), evs[k])
  }

  lemma FilesPassKeepsIntact(b: Board, deleted: set<string>, lib: IndexLibrary)
    requires Lawful(lib) && (deleted == {} ==> Intact(b))
    ensures Intact(FilesPass(b, deleted, lib))
  {
    if deleted != {} {
      WholePassIsIntact(b, JustDeleted(deleted), lib);
    }
  }

  lemma EventKeepsIntact(b: Board, ev: Event, lib: IndexLibrary)
    requires Lawful(lib) && Intact(b) && Legal(b, ev) && KeepsValid(ev)
    ensures Intact(Observed(b, ev, lib))
  {
    hide Intact, Repaired, Lawful, ElementsPass, Renderable;
    match ev
    case Load =>
      WholePassIsIntact(b, ColdStart, lib);
    case Transaction(now, changed, filesFirst) =>
      var deleted := DeletedFiles(b, now);
      if filesFirst && deleted != {} {
        var mid := FilesPass(now, deleted, lib);
        WholePassIsIntact(now, JustDeleted(deleted), lib);
        forall id | id in mid.elements
          ensures Renderable(Current(mid, id))
        {
          WholePassElement(now, JustDeleted(deleted), lib, id);
        }
        LivePassKeepsIntact(mid, mid, changed, lib);
      } else {
        LivePassKeepsIntact(b, now, changed, lib);
        FilesPassKeepsIntact(ElementsPass(now, changed, lib), deleted, lib);
      }
  }

  /**
   * Over every run of legal transactions whose changed elements stay renderable, the board
   * has no dangling reference after any event and its observer passes.
   */
  lemma {:induction false} RunStaysIntact(b: Board, evs: seq<Event>, lib: IndexLibrary)
    requires Lawful(lib) && LegalRun(b, evs, lib)
    requires forall k :: 0 <= k < |evs| ==> KeepsValid(evs[k])
    requires Intact(b) || (evs != [] && evs[0] == Load)
    ensures evs != [] ==> Intact(RunOf(b, evs, lib))
  {
    hide Intact, Observed, Lawful, Legal, KeepsValid;
    if evs != [] {
      var front, last := evs[..|evs| - 1], evs[|evs| - 1];
      assert forall k :: 0 <= k < |front| ==> front[..k] == evs[..k] && front[k] == evs[k];
      assert RunOf(b, front, lib) == RunOf(b, evs[..|evs| - 1], lib);
      if front == [] && evs[0] == Load {
        LoadIsIntact(b, lib);
      } else {
        assert front == [] ==> RunOf(b, front, lib) == b;
        RunStaysIntact(b, front, lib);
        EventKeepsIntact(RunOf(b, front, lib), last, lib);
      }
    }
  }

  lemma LoadIsIntact(b: Board, lib: IndexLibrary)
    requires Lawful(lib)
    ensures Intact(Observed(b, Load, lib))
  {
    WholePassIsIntact(b, ColdStart, lib);
  }

  // ----- indices over a run -----

  /** Every element can be rendered and has a legal index. */
  predicate Indexed(b: Board, valid: ValidIndex) {
    forall id :: id in b.elements ==> Renderable(Current(b, id)) && HasValidIndex(Current(b, id), valid)
  }

  /** A pass leaves every element of its scope in order. */
  lemma PassIndexes(b: Board, scope: Option<set<string>>, policy: FilePolicy, lib: IndexLibrary, id: string)
    requires Lawful(lib) && InScope(scope, id) && id in Repaired(b, scope, policy, lib).elements
    ensures var after := Repaired(b, scope, policy, lib);
            Renderable(Current(after, id)) && HasValidIndex(Current(after, id), lib.valid)
  {
    PassAddsNothing(b, scope, policy, lib);
    var after, p := Repaired(b, scope, policy, lib), PassOf(b, policy, lib);
    assert p.valid == lib.valid;
    hide *;
    PassElement(b, scope, policy, lib, id);
    PassFits(b, policy, lib, id);
    RealizedIndex(Current(b, id), id, p, Current(after, id));
    RealizedFields(Current(b, id), id, p, Current(after, id));
  }

  lemma WholePassIndexes(b: Board, policy: FilePolicy, lib: IndexLibrary)
    requires Lawful(lib)
    ensures Indexed(Repaired(b, None, policy, lib), lib.valid)
  {
    var after := Repaired(b, None, policy, lib);
    hide Repaired, Lawful, Current, HasValidIndex, Renderable;
    forall id | id in after.elements
      ensures Renderable(Current(after, id)) && HasValidIndex(Current(after, id), lib.valid)
    {
      PassIndexes(b, None, policy, lib, id);
    }
  }

  /** A scoped pass brings the changed elements back in order; the others were in order already. */
  lemma LivePassIndexes(before: Board, now: Board, changed: set<string>, lib: IndexLibrary)
    requires Lawful(lib) && Indexed(before, lib.valid) && ChangedOnly(before, now, changed)
    ensures Indexed(ElementsPass(now, changed, lib), lib.valid)
  {
    if changed == {} {
      assert forall id :: id in now.elements ==> Current(now, id) == Current(before, id);
    } else {
      var scope, after := Some(LiveScope(now, changed)), ElementsPass(now, changed, lib);
      hide Repaired, Lawful, HasValidIndex, Renderable, LiveScope;
      PassAddsNothing(now, scope, NoDrop, lib);
      ScopeCovers(now, changed);
      forall id | id in after.elements
        ensures Renderable(Current(after, id)) && HasValidIndex(Current(after, id), lib.valid)
      {
        if InScope(scope, id) {
          PassIndexes(now, scope, NoDrop, lib, id);
        } else {
          Unscoped(now, scope, NoDrop, lib, id);
          assert Current(after, id) == Current(before, id);
        }
      }
    }
  }

  lemma Unscoped(b: Board, scope: Option<set<string>>, policy: FilePolicy, lib: IndexLibrary, id: string)
    requires id in b.elements && !InScope(scope, id)
    ensures var after := Repaired(b, scope, policy, lib);
            id in after.elements && after.elements[id] == b.elements[id]
  {
    PassElement(b, scope, policy, lib, id);
  }

  lemma ScopeCovers(b: Board, changed: set<string>)
    ensures changed <= LiveScope(b, changed)
  {
  }

  lemma EventIndexes(b: Board, ev: Event, lib: IndexLibrary)
    requires Lawful(lib) && Legal(b, ev) && (ev.Load? || Indexed(b, lib.valid))
    ensures Indexed(Observed(b, ev, lib), lib.valid)
  {
    hide Indexed, Repaired, Lawful, ElementsPass;
    match ev
    case Load =>
      WholePassIndexes(b, ColdStart, lib);
    case Transaction(now, changed, filesFirst) =>
      var deleted := DeletedFiles(b, now);
      if !filesFirst || deleted == {} {
        LivePassIndexes(b, now, changed, lib);
        if deleted != {} {
          WholePassIndexes(ElementsPass(now, changed, lib), JustDeleted(deleted), lib);
        }
      } else {
        var mid := FilesPass(now, deleted, lib);
        WholePassIndexes(now, JustDeleted(deleted), lib);
        LivePassIndexes(mid, mid, changed, lib);
      }
  }

  /**
   * Over every run of legal transactions, whatever they write, every element has a legal index
   * and can be rendered after any event and its observer passes.
   */
  lemma {:induction false} RunStaysIndexed(b: Board, evs: seq<Event>, lib: IndexLibrary)
    requires Lawful(lib) && LegalRun(b, evs, lib)
    requires Indexed(b, lib.valid) || (evs != [] && evs[0] == Load)
    ensures evs != [] ==> Indexed(RunOf(b, evs, lib), lib.valid)
  {
    hide Indexed, Observed, Lawful, Legal;
    if evs != [] {
      var front, last := evs[..|evs| - 1], evs[|evs| - 1];
      assert forall k :: 0 <= k < |front| ==> front[..k] == evs[..k] && front[k] == evs[k];
      assert RunOf(b, front, lib) == RunOf(b, evs[..|evs| - 1], lib);
      assert front == [] ==> RunOf(b, front, lib) == b;
      if front != [] {
        RunStaysIndexed(b, front, lib);
      }
      EventIndexes(RunOf(b, front, lib), last, lib);
    }
  }

  // ----- what repair may remove -----

  /** An image whose file the transaction deleted and did not put back. */
  predicate LostItsFile(b: Board, now: Board, id: string) {
    var e := Current(now, id);
    Get(e, "type") == Str("image") && Get(e, "fileId").Str? && Get(e, "fileId").s in DeletedFiles(b, now)
  }

  /** The element is still there, can be rendered, and has the type and the file it had. */
  predicate KeptAs(after: Board, e: Entry, id: string) {
    && id in after.elements && Renderable(Current(after, id))
    && Get(Current(after, id), "type") == Get(e, "type") && Get(Current(after, id), "fileId") == Get(e, "fileId")
  }

  /** A pass keeps an element that can be rendered and is no image it drops. */
  lemma PassKeepsElement(b: Board, scope: Option<set<string>>, policy: FilePolicy, lib: IndexLibrary, id: string)
    requires id in b.elements && Renderable(Current(b, id)) && !DropsImage(b, Current(b, id), policy)
    ensures Repaired(b, scope, policy, lib).files == b.files
    ensures KeptAs(Repaired(b, scope, policy, lib), Current(b, id), id)
  {
    hide *;
    var after := Repaired(b, scope, policy, lib);
    SurvivesIf(b, policy, id);
    PassAddsNothing(b, scope, policy, lib);
    PassElement(b, scope, policy, lib, id);
    if InScope(scope, id) {
      RealizedFields(Current(b, id), id, PassOf(b, policy, lib), Current(after, id));
    } else {
      SameCurrent(b, after, id);
    }
    KeptIf(after, Current(b, id), id);
  }

  lemma KeptIf(after: Board, e: Entry, id: string)
    requires id in after.elements && Renderable(Current(after, id))
    requires Get(Current(after, id), "type") == Get(e, "type") && Get(Current(after, id), "fileId") == Get(e, "fileId")
    ensures KeptAs(after, e, id)
  {
  }

  lemma SurvivesIf(b: Board, policy: FilePolicy, id: string)
    requires id in b.elements && Renderable(Current(b, id)) && !DropsImage(b, Current(b, id), policy)
    ensures id in Survivors(b, policy)
  {
    hide Renderable, DropsImage, Current;
  }

  lemma SameCurrent(b: Board, after: Board, id: string)
    requires id in b.elements && id in after.elements && after.elements[id] == b.elements[id]
    ensures Current(after, id) == Current(b, id)
  {
  }

  lemma ElementsPassKeeps(b: Board, changed: set<string>, lib: IndexLibrary, id: string)
    requires id in b.elements && Renderable(Current(b, id))
    ensures ElementsPass(b, changed, lib).files == b.files && KeptAs(ElementsPass(b, changed, lib), Current(b, id), id)
  {
    if changed != {} {
      hide Repaired, Renderable, KeptAs, LiveScope, Current;
      PassKeepsElement(b, Some(LiveScope(b, changed)), NoDrop, lib, id);
    }
  }

  lemma FilesPassKeeps(b: Board, deleted: set<string>, lib: IndexLibrary, id: string)
    requires id in b.elements && Renderable(Current(b, id)) && !DropsImage(b, Current(b, id), JustDeleted(deleted))
    ensures FilesPass(b, deleted, lib).files == b.files && KeptAs(FilesPass(b, deleted, lib), Current(b, id), id)
  {
    if deleted != {} {
      hide Repaired, Renderable, KeptAs, Current, DropsImage;
      PassKeepsElement(b, None, JustDeleted(deleted), lib, id);
    }
  }

  /** The board as the users left it, before the observers of an event ran. */
  function Submitted(b: Board, ev: Event): Board {
    if ev.Transaction? then ev.now else b
  }

  /**
   * Whatever the event, repair removes no file, and it removes a renderable element only when
   * it is an image whose file the same transaction deleted.
   */
  lemma RepairKeeps(b: Board, ev: Event, lib: IndexLibrary, id: string)
    requires id in Submitted(b, ev).elements && Renderable(Current(Submitted(b, ev), id))
    ensures Observed(b, ev, lib).files == Submitted(b, ev).files
    ensures !LostItsFile(b, Submitted(b, ev), id) ==> KeptAs(Observed(b, ev, lib), Current(Submitted(b, ev), id), id)
  {
    hide Renderable, ElementsPass, Repaired;
    match ev
    case Load =>
      LoadKeeps(b, lib, id);
    case Transaction(now, changed, filesFirst) =>
      var deleted := DeletedFiles(b, now);
      FilesUntouched(now, deleted, changed, lib);
      ElementsPassKeeps(now, changed, lib, id);
      if !LostItsFile(b, now, id) {
        if filesFirst {
          FilesPassKeeps(now, deleted, lib, id);
          ElementsPassKeeps(FilesPass(now, deleted, lib), changed, lib, id);
        } else {
          FilesPassKeeps(ElementsPass(now, changed, lib), deleted, lib, id);
        }
      }
  }

  lemma FilesUntouched(b: Board, deleted: set<string>, changed: set<string>, lib: IndexLibrary)
    ensures ElementsPass(FilesPass(b, deleted, lib), changed, lib).files == b.files
    ensures FilesPass(ElementsPass(b, changed, lib), deleted, lib).files == b.files
  {
    hide PlanFor;
  }

  lemma LoadKeeps(b: Board, lib: IndexLibrary, id: string)
    requires id in b.elements && Renderable(Current(b, id))
    ensures Observed(b, Load, lib).files == b.files && KeptAs(Observed(b, Load, lib), Current(b, id), id)
  {
    hide Repaired, Renderable, KeptAs, Current;
    PassKeepsElement(b, None, ColdStart, lib, id);
  }

  /**
   * An image whose file has not arrived yet survives every run of loads and transactions that
   * neither change it nor delete that file, so a split insert can always be completed.
   */
  lemma {:induction false} PendingImageSurvives(b: Board, evs: seq<Event>, lib: IndexLibrary, id: string)
    requires LegalRun(b, evs, lib)
    requires id in b.elements && Renderable(Current(b, id))
    requires forall k :: 0 <= k < |evs| && evs[k].Transaction? ==>
               && id !in evs[k].changed
               && !(Get(Current(b, id), "fileId").Str?
                    && Get(Current(b, id), "fileId").s in DeletedFiles(RunOf(b, evs[..k], lib), evs[k].now))
    ensures var after := RunOf(b, evs, lib);
            && id in after.elements && Renderable(Current(after, id))
            && Get(Current(after, id), "fileId") == Get(Current(b, id), "fileId")
  {
    hide Renderable, Observed, Get;
    if evs != [] {
      var front, last := evs[..|evs| - 1], evs[|evs| - 1];
      assert forall k :: 0 <= k < |front| ==> front[..k] == evs[..k] && front[k] == evs[k];
      PendingImageSurvives(b, front, lib, id);
      var mid := RunOf(b, front, lib);
      assert Legal(mid, last);
      assert Current(Submitted(mid, last), id) == Current(mid, id) && id in Submitted(mid, last).elements;
      assert !LostItsFile(mid, Submitted(mid, last), id);
      RepairKeeps(mid, last, lib, id);
    }
  }

  // ----- nothing is lost over a run -----

  lemma EventKeepsFiles(b: Board, ev: Event, lib: IndexLibrary)
    ensures Observed(b, ev, lib).files == Submitted(b, ev).files
  {
    hide ElementsPass, FilesPass, PlanFor;
    if ev.Transaction? {
      FilesUntouched(ev.now, DeletedFiles(b, ev.now), ev.changed, lib);
    } else {
      PassAddsNothing(b, None, ColdStart, lib);
    }
  }

  /** The files as the last transaction of a run left them. */
  function FilesAfter(b: Board, evs: seq<Event>): set<string> {
    if evs == [] then b.files
    else if evs[|evs| - 1].Transaction? then evs[|evs| - 1].now.files
    else FilesAfter(b, evs[..|evs| - 1])
  }

  /** Over every run repair removes no file, and adds none. */
  lemma {:induction false} RunKeepsFiles(b: Board, evs: seq<Event>, lib: IndexLibrary)
    ensures RunOf(b, evs, lib).files == FilesAfter(b, evs)
  {
    hide Observed;
    if evs != [] {
      RunKeepsFiles(b, evs[..|evs| - 1], lib);
      EventKeepsFiles(RunOf(b, evs[..|evs| - 1], lib), evs[|evs| - 1], lib);
    }
  }

  /** The users leave the element: it is there, can be rendered, and is no image whose file they deleted. */
  predicate UsersLeave(b: Board, ev: Event, id: string) {
    var now := Submitted(b, ev);
    id in now.elements && Renderable(Current(now, id)) && !LostItsFile(b, now, id)
  }

  /**
   * Over every run, an element goes only when some transaction removes it, makes it unrenderable
   * or deletes the file of the image it is: repair on its own never loses one.
   */
  lemma {:induction false} RunLosesNothing(b: Board, evs: seq<Event>, lib: IndexLibrary, id: string)
    requires id in b.elements && Renderable(Current(b, id))
    requires forall k :: 0 <= k < |evs| && evs[k].Transaction? ==> UsersLeave(RunOf(b, evs[..k], lib), evs[k], id)
    ensures id in RunOf(b, evs, lib).elements && Renderable(Current(RunOf(b, evs, lib), id))
  {
    hide Renderable, Observed, LostItsFile;
    if evs != [] {
      var front, last := evs[..|evs| - 1], evs[|evs| - 1];
      assert forall k :: 0 <= k < |front| ==> front[..k] == evs[..k] && front[k] == evs[k];
      RunLosesNothing(b, front, lib, id);
      var mid := RunOf(b, front, lib);
      NothingDeleted(mid, id);
      RepairKeeps(mid, last, lib, id);
    }
  }

  lemma NothingDeleted(b: Board, id: string)
    ensures !LostItsFile(b, b, id)
  {
    hide Get;
  }
}
