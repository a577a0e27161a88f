/**
 * The repair code itself: planning over an arbitrary enumeration of the board, applying a plan
 * in place, the two observers, and the choice of the client id repair writes under.
 */
module WhiteboardRepair {
  import opened Prelude
  import opened Strings
  import opened JsValues
  import opened WhiteboardSchema
  import opened EntryMaps
  import opened RepairSpec
  import opened RepairLaws
  import opened SeqFacts

  const REPAIR_CLIENT_ID: int := 0x7fffffff

  // ----- the order of the writes -----

  ghost function AllWrites(b: Board, plan: Plan, ids: seq<string>): seq<Write>
    requires forall id :: id in ids ==> id in plan.writes && id in b.elements
  {
    if ids == [] then []
    else
      var id := ids[|ids| - 1];
      AllWrites(b, plan, ids[..|ids| - 1]) + EntryWrites(id, Some(b.elements[id]), plan.writes[id])
  }

  function Drops(ids: seq<string>): seq<Write> {
    if ids == [] then [] else Drops(ids[..|ids| - 1]) + [DropEntry(ids[|ids| - 1])]
  }

  /** Everything a plan writes: a function of the board and the plan alone. */
  ghost function WritesOf(b: Board, plan: Plan): seq<Write>
    requires plan.writes.Keys <= b.elements.Keys
  {
    AllWrites(b, plan, SortedKeys(plan.writes.Keys)) + Drops(plan.drops)
  }

  // ----- planning -----

  predicate Enumerates(keys: seq<string>, b: Board) {
    Distinct(keys) && Elements(keys) == b.elements.Keys
  }

  /** Pass 1: survivors and drops, in enumeration order. */
  method PlanSurvivors(b: Board, keys: seq<string>, policy: FilePolicy)
    returns (survivors: seq<string>, referenceable: set<string>, dropAll: seq<string>)
    requires Enumerates(keys, b)
    ensures Distinct(survivors) && Elements(survivors) == Survivors(b, policy)
    ensures referenceable == Referenceable(b, policy)
    ensures Distinct(dropAll) && Elements(dropAll) == b.elements.Keys - Survivors(b, policy)
  {
    hide Renderable, DropsImage, Current, Tombstoned, Keep;
    survivors, referenceable, dropAll := [], {}, [];
    ghost var lives := id => Survives(b, id, policy);
    ghost var serves := id => Survives(b, id, policy) && !Tombstoned(Current(b, id));
    ghost var dies := id => !Survives(b, id, policy);
    NothingKept(lives);
    NothingKept(serves);
    NothingKept(dies);
    for i := 0 to |keys|
      invariant survivors == Keep(keys[..i], lives)
      invariant referenceable == Elements(Keep(keys[..i], serves))
      invariant dropAll == Keep(keys[..i], dies)
    {
      var id := keys[i];
      KeepStep(keys, i, lives);
      KeepStep(keys, i, serves);
      KeepStep(keys, i, dies);
      if Survives(b, id, policy) {
        survivors := survivors + [id];
        if !Tombstoned(Current(b, id)) {
          referenceable := referenceable + {id};
        }
      } else {
        dropAll := dropAll + [id];
      }
    }
    WholePrefix(keys);
    KeepFacts(keys, lives);
    KeepFacts(keys, serves);
    KeepFacts(keys, dies);
  }

  lemma NothingKept(p: string -> bool)
    ensures Keep([], p) == []
    ensures Elements(Keep([], p)) == {}
  {
  }

  /** The greatest valid index and the indexless survivors, over the sorted survivors. */
  method ScanIndices(b: Board, sorted: seq<string>, valid: ValidIndex) returns (indexless: seq<string>, max: Option<string>)
    requires StrictlySorted(sorted)
    ensures StrictlySorted(indexless) && Elements(indexless) == set id | id in Elements(sorted) && !HasValidIndex(Current(b, id), valid)
    ensures max == MaxIndex(b, sorted, valid)
  {
    hide Less, Current, Keep;
    indexless, max := [], None;
    ghost var lacks := id => !HasValidIndex(Current(b, id), valid);
    NothingKept(lacks);
    for i := 0 to |sorted|
      invariant indexless == Keep(sorted[..i], lacks)
      invariant max == MaxIndex(b, sorted[..i], valid)
    {
      var id := sorted[i];
      KeepStep(sorted, i, lacks);
      assert sorted[..i + 1][..i] == sorted[..i];
      var e := Current(b, id);
      if !HasValidIndex(e, valid) {
        indexless := indexless + [id];
      } else if max.None? || Less(max.value, e["index"].s) {
        max := Some(e["index"].s);
      }
    }
    WholePrefix(sorted);
    KeepFacts(sorted, lacks);
  }

  method ZipKeys(ids: seq<string>, keys: seq<string>) returns (fill: map<string, string>)
    requires |ids| == |keys|
    ensures fill == Zip(ids, keys)
  {
    fill := map[];
    for i := 0 to |ids|
      invariant fill == Zip(ids[..i], keys[..i])
    {
      assert ids[..i + 1][..i] == ids[..i] && keys[..i + 1][..i] == keys[..i];
      fill := fill[ids[i] := keys[i]];
    }
    assert ids[..|ids|] == ids && keys[..|keys|] == keys;
  }

  method PlanIndexFill(b: Board, survivors: seq<string>, policy: FilePolicy, lib: IndexLibrary) returns (fill: map<string, string>)
    requires Distinct(survivors) && Elements(survivors) == Survivors(b, policy) && Lawful(lib)
    ensures fill == IndexFill(b, policy, lib)
  {
    hide Less, MaxIndex, HasValidIndex, Survives, Current, Zip, StrictlySorted, Sort, SortedKeys, AnyOrder;
    SortIsCanonical(survivors);
    SortSorts(survivors);
    var sorted := Sort(survivors);
    var indexless, max := ScanIndices(b, sorted, lib.valid);
    assert Elements(indexless) == Indexless(b, policy, lib.valid);
    SortedUnique(indexless, SortedKeys(Indexless(b, policy, lib.valid)));
    MaxIndexIsMax(b, sorted, lib.valid);
    assert LawfulBatch(lib, max, lib.keysAfter(max, |indexless|), |indexless|);
    fill := map[];
    NothingZipped();
    FillOf(b, policy, lib, indexless, max);
    if |indexless| > 0 {
      fill := ZipKeys(indexless, lib.keysAfter(max, |indexless|));
      assert fill == IndexFill(b, policy, lib);
    } else {
      assert lib.keysAfter(max, |indexless|) == [] && indexless == [];
    }
  }

  lemma FillOf(b: Board, policy: FilePolicy, lib: IndexLibrary, ids: seq<string>, max: Option<string>)
    requires ids == SortedKeys(Indexless(b, policy, lib.valid))
    requires max == MaxIndex(b, SortedKeys(Survivors(b, policy)), lib.valid)
    requires |lib.keysAfter(max, |ids|)| == |ids|
    ensures IndexFill(b, policy, lib) == Zip(ids, lib.keysAfter(max, |ids|))
  {
    hide Zip, MaxIndex, Indexless, SortedKeys, Survivors;
  }

  lemma NothingZipped()
    ensures Zip([], []) == map[]
  {
  }

  /** The element ids a pass considers, in sorted order. */
  method Candidates(ids: seq<string>, scope: Option<set<string>>) returns (out: seq<string>)
    requires Distinct(ids)
    ensures out == SortedKeys(set id | id in Elements(ids) && InScope(scope, id))
  {
    hide Keep, Sort, SortedKeys;
    var kept := [];
    ghost var wanted := id => InScope(scope, id);
    NothingKept(wanted);
    for i := 0 to |ids|
      invariant kept == Keep(ids[..i], wanted)
    {
      KeepStep(ids, i, wanted);
      if InScope(scope, ids[i]) {
        kept := kept + [ids[i]];
      }
    }
    WholePrefix(ids);
    KeepFacts(ids, wanted);
    assert Elements(kept) == set id | id in Elements(ids) && InScope(scope, id);
    SortIsCanonical(kept);
    out := Sort(kept);
  }

  /** The writes a list of candidates needs. */
  ghost function WritesFor(b: Board, ids: seq<string>, policy: FilePolicy, lib: IndexLibrary): map<string, Entry>
    requires forall id :: id in ids ==> Renderable(Current(b, id))
  {
    if ids == [] then map[]
    else
      var id := ids[|ids| - 1];
      var before := WritesFor(b, ids[..|ids| - 1], policy, lib);
      if ObjectEquals(Current(b, id), Final(b, id, policy, lib)) then before else before[id := Final(b, id, policy, lib)]
  }

  lemma {:induction false} WritesForIs(b: Board, ids: seq<string>, policy: FilePolicy, lib: IndexLibrary)
    requires forall id :: id in ids ==> Renderable(Current(b, id))
    ensures WritesFor(b, ids, policy, lib)
         == map id | id in Elements(ids) && Renderable(Current(b, id)) && !ObjectEquals(Current(b, id), Final(b, id, policy, lib))
              :: Final(b, id, policy, lib)
  {
    hide Renderable, Current, Final, ObjectEquals;
    if ids != [] {
      WritesForIs(b, ids[..|ids| - 1], policy, lib);
      assert ids == ids[..|ids| - 1] + [ids[|ids| - 1]];
    }
  }

  /** The code's comparison: as many fields, and each one answered by the other object, with an equal value. */
  predicate EqualAsWritten(a: Entry, b: Entry) {
    |a.Keys| == |b.Keys| && forall field :: field in a ==> !Stale(b, field) && !Differs(b, a, field)
  }

  /** What is inherited never makes two objects equal that are not: elements have no field `__proto__`. */
  lemma EqualAsWrittenIs(a: Entry, b: Entry)
    requires Renderable(a)
    ensures EqualAsWritten(a, b) <==> ObjectEquals(a, b)
  {
    assert "__proto__" in RESERVED_KEYS && "__proto__" !in a;
    hide Renderable, INHERITED, JsonForm;
    forall field | field in a
      ensures !Stale(b, field) && !Differs(b, a, field) <==> field in b && FieldEquals(a[field], b[field])
    {
    }
    if EqualAsWritten(a, b) {
      SameSize(a.Keys, b.Keys);
    }
  }

  lemma SameSize(a: set<string>, b: set<string>)
    requires a <= b && |a| == |b|
    ensures a == b
  {
    assert |b - a| == |b| - |a|;
  }

  method PlanWrites(b: Board, candidates: seq<string>, referenceable: set<string>, fill: map<string, string>, policy: FilePolicy, lib: IndexLibrary)
    returns (writes: map<string, Entry>)
    requires forall id :: id in candidates ==> Renderable(Current(b, id))
    requires referenceable == Referenceable(b, policy) && fill == IndexFill(b, policy, lib)
    ensures writes == WritesFor(b, candidates, policy, lib)
  {
    hide Renderable, Current, ObjectEquals, EqualAsWritten, Normalize, Referenceable, IndexFill;
    writes := map[];
    for i := 0 to |candidates|
      invariant writes == WritesFor(b, candidates[..i], policy, lib)
    {
      var id := candidates[i];
      assert candidates[..i + 1][..i] == candidates[..i];
      var el := Current(b, id);
      var final := WithIndex(Normalize(el, Some(referenceable), lib.valid).value, fill, id);
      EqualAsWrittenIs(el, final);
      if !EqualAsWritten(el, final) {
        writes := writes[id := final];
      }
    }
    WholePrefix(candidates);
  }

  /** `planRepair`: whatever the enumeration of the board, the plan is the same. */
  method PlanRepair(b: Board, keys: seq<string>, scope: Option<set<string>>, policy: FilePolicy, lib: IndexLibrary)
    returns (plan: Plan)
    requires Enumerates(keys, b) && Lawful(lib)
    ensures plan == PlanFor(b, scope, policy, lib)
  {
    hide Lawful, IndexFill, Final, ObjectEquals, Renderable, Referenceable, Current, SortedKeys, Survives, Survivors, Less, WritesFor;
    var survivors, referenceable, dropAll := PlanSurvivors(b, keys, policy);
    var fill := PlanIndexFill(b, survivors, policy, lib);
    var candidates := Candidates(survivors, scope);
    var drops := Candidates(dropAll, scope);
    SurvivorsRender(b, policy);
    assert forall id :: id in candidates ==> id in Elements(candidates);
    var writes := PlanWrites(b, candidates, referenceable, fill, policy, lib);
    WritesForIs(b, candidates, policy, lib);
    PlanParts(b, scope, policy, lib);
    plan := Plan(writes, drops);
    assert writes == PlanFor(b, scope, policy, lib).writes;
  }

  lemma SurvivorsRender(b: Board, policy: FilePolicy)
    ensures forall id :: id in Survivors(b, policy) ==> Renderable(Current(b, id))
  {
    hide Renderable, Current, DropsImage;
  }

  lemma PlanParts(b: Board, scope: Option<set<string>>, policy: FilePolicy, lib: IndexLibrary)
    ensures PlanFor(b, scope, policy, lib).drops == SortedKeys(set id | id in b.elements.Keys - Survivors(b, policy) && InScope(scope, id))
    ensures var wanted := set id | id in Survivors(b, policy) && InScope(scope, id);
            PlanFor(b, scope, policy, lib).writes == map id | id in wanted && Renderable(Current(b, id)) && !ObjectEquals(Current(b, id), Final(b, id, policy, lib))
              :: Final(b, id, policy, lib)
  {
    SurvivorsRender(b, policy);
    DroppedIds(b, scope, policy);
    hide Renderable, Current, DropsImage, Final, ObjectEquals, Survives, Survivors;
  }

  lemma DroppedIds(b: Board, scope: Option<set<string>>, policy: FilePolicy)
    ensures (set id | id in b.elements.Keys - Survivors(b, policy) && InScope(scope, id))
         == (set id | id in b.elements && !Survives(b, id, policy) && InScope(scope, id))
  {
    hide Survives;
  }

  // ----- applying a plan in place -----

  ghost predicate Planned(els: map<string, Stored>, writes: map<string, Entry>, ids: seq<string>) {
    forall id :: id in ids ==> id in writes && id in els
  }

  function WriteAll(els: map<string, Stored>, writes: map<string, Entry>, ids: seq<string>): map<string, Stored> {
    if ids == [] then els
    else
      var id := ids[|ids| - 1];
      var before := WriteAll(els, writes, ids[..|ids| - 1]);
      if id in writes && id in els then before[id := YMap(Written(WriteTarget(Some(els[id])), writes[id]))] else before
  }

  lemma {:induction false} WriteAllAt(els: map<string, Stored>, writes: map<string, Entry>, ids: seq<string>, id: string)
    requires Planned(els, writes, ids)
    ensures id in WriteAll(els, writes, ids) <==> id in els
    ensures id in els ==>
              WriteAll(els, writes, ids)[id] == if id in ids then YMap(Written(WriteTarget(Some(els[id])), writes[id])) else els[id]
  {
    hide Written, WriteTarget;
    if ids != [] {
      var front, last := ids[..|ids| - 1], ids[|ids| - 1];
      assert forall x :: x in front ==> x in ids;
      assert last in ids;
      WriteAllAt(els, writes, front, id);
      assert id in ids <==> id in front || id == last;
    }
  }

  lemma AppliedIs(b: Board, plan: Plan, ids: seq<string>)
    requires plan.writes.Keys <= b.elements.Keys && (forall id :: id in ids <==> id in plan.writes)
    ensures Applied(b, plan) == Board(WriteAll(b.elements, plan.writes, ids) - Elements(plan.drops), b.files)
  {
    var after := WriteAll(b.elements, plan.writes, ids) - Elements(plan.drops);
    forall id
      ensures id in Applied(b, plan).elements <==> id in after
      ensures id in after ==> after[id] == Applied(b, plan).elements[id]
    {
      hide Written, WriteTarget, WriteAll;
      WriteAllAt(b.elements, plan.writes, ids, id);
      assert id in plan.drops <==> id in Elements(plan.drops);
    }
    hide *;
    assert Applied(b, plan).elements == after;
    FilesApplied(b, plan);
  }

  lemma FilesApplied(b: Board, plan: Plan)
    ensures Applied(b, plan).files == b.files
  {
    hide Written;
  }

  /** What an observer sees of a change below the elements map. */
  datatype ElementEvent = TopLevel(keys: seq<string>) | Nested(path: seq<string>)

  /** What an observer sees of a change below the files map; a key was deleted or set. */
  datatype FileEvent = FileKeys(changes: seq<(string, bool)>) | NestedFile

  function EventIds(e: ElementEvent): set<string> {
    match e
    case TopLevel(keys) => Elements(keys)
    case Nested(path) => if path == [] then {} else {path[0]}
  }

  function ChangedIds(events: seq<ElementEvent>): set<string> {
    set i, id | 0 <= i < |events| && id in EventIds(events[i]) :: id
  }

  function DeletedKeys(changes: seq<(string, bool)>): set<string> {
    set c | c in changes && c.1 :: c.0
  }

  function EventDeletes(e: FileEvent): set<string> {
    if e.FileKeys? then DeletedKeys(e.changes) else {}
  }

  function DeletedIds(events: seq<FileEvent>): set<string> {
    set i, id | 0 <= i < |events| && id in EventDeletes(events[i]) :: id
  }

  /** The change names the element: as a key of the map, or as the first step of a path into it. */
  predicate Touches(e: ElementEvent, id: string) {
    (e.TopLevel? && id in e.keys) || (e.Nested? && |e.path| > 0 && e.path[0] == id)
  }

  lemma ChangedAre(events: seq<ElementEvent>, id: string)
    ensures id in ChangedIds(events) <==> exists e :: e in events && Touches(e, id)
  {
    forall e: ElementEvent
      ensures id in EventIds(e) <==> Touches(e, id)
    {
    }
    hide EventIds, Touches;
    if i :| 0 <= i < |events| && id in EventIds(events[i]) {
      assert events[i] in events;
    }
    if e :| e in events && Touches(e, id) {
      var i :| 0 <= i < |events| && events[i] == e;
    }
  }

  /** The change deletes the file: an entry set or replaced deletes nothing. */
  predicate Removes(e: FileEvent, id: string) {
    e.FileKeys? && (id, true) in e.changes
  }

  lemma DeletedAre(events: seq<FileEvent>, id: string)
    ensures id in DeletedIds(events) <==> exists e :: e in events && Removes(e, id)
  {
    forall e: FileEvent
      ensures id in EventDeletes(e) <==> Removes(e, id)
    {
    }
    hide EventDeletes, Removes;
    if i :| 0 <= i < |events| && id in EventDeletes(events[i]) {
      assert events[i] in events;
    }
    if e :| e in events && Removes(e, id) {
      var i :| 0 <= i < |events| && events[i] == e;
    }
  }

  // ----- the id repair writes under -----

  predicate IsGreatestFree(id: int, taken: set<int>) {
    id <= 2147483647 && id !in taken && forall j :: id < j <= 2147483647 ==> j in taken
  }

  method ChooseRepairClientId(present: set<int>, own: int) returns (id: int)
    ensures IsGreatestFree(id, present + {own})
  {
    id := REPAIR_CLIENT_ID;
    ghost var taken := present + {own};
    while id in present || id == own
      invariant id <= REPAIR_CLIENT_ID && forall j :: id < j <= REPAIR_CLIENT_ID ==> j in taken
      decreases |set j | j in taken && j <= id|
    {
      ghost var below := set j | j in taken && j <= id;
      assert (set j | j in taken && j <= id - 1) == below - {id};
      id := id - 1;
    }
  }

  /**
   * Every node picks the same id for the same loaded state, namely the greatest reserved id the
   * state does not use, exactly when its own throwaway id is not that one.
   */
  lemma RepairIdIsStable(present: set<int>, own: int, id: int, free: int)
    requires IsGreatestFree(id, present + {own}) && IsGreatestFree(free, present)
    ensures id == free <==> own != free
  {
    if own != free {
      assert free !in present + {own};
      assert id !in present;
      assert !(id < free) && !(free < id);
    }
  }

  /** The live document: its two shared maps, and the id its changes are written under. */
  class LiveBoard {
    const elements: EntryMap
    const files: EntryMap
    var clientId: int

    ghost predicate Valid()
      reads this
    {
      elements != files
    }

    ghost function State(): Board
      reads this, elements, files
    {
      Board(elements.entries, files.entries.Keys)
    }

    constructor (initial: map<string, Stored>, refs: map<string, Stored>, id: int)
      ensures State() == Board(initial, refs.Keys) && clientId == id
      ensures Valid() && fresh(elements) && fresh(files) && elements.log == [] && files.log == []
    {
      clientId := id;
      elements := new EntryMap(initial);
      files := new EntryMap(refs);
    }

    /** `applyPlan`: rewrites in sorted order, then drops; an empty plan opens no transaction. */
    method ApplyPlan(plan: Plan) returns (wrote: bool)
      requires Valid() && plan.writes.Keys <= elements.entries.Keys
      modifies elements
      ensures State() == Applied(old(State()), plan)
      ensures elements.log == old(elements.log) + WritesOf(old(State()), plan)
      ensures wrote <==> plan != Plan(map[], [])
    {
      hide SortedKeys, Applied, WriteAll, AllWrites, Drops, Distinct;
      wrote := plan.writes != map[] || plan.drops != [];
      var ids := SortedFields(plan.writes);
      AppliedIs(State(), plan, ids);
      RewriteElements(plan, ids);
      DropElements(plan.drops);
      Assoc(old(elements.log), AllWrites(old(State()), plan, ids), Drops(plan.drops));
    }

    method RewriteElements(plan: Plan, ids: seq<string>)
      requires Valid() && Distinct(ids) && forall id :: id in ids ==> id in plan.writes && id in elements.entries
      modifies elements
      ensures elements.entries == WriteAll(old(elements.entries), plan.writes, ids)
      ensures elements.log == old(elements.log) + AllWrites(old(State()), plan, ids)
    {
      hide Written, EntryWrites, WriteTarget;
      ghost var start := elements.entries;
      for i := 0 to |ids|
        invariant elements.entries == WriteAll(start, plan.writes, ids[..i])
        invariant elements.log == old(elements.log) + AllWrites(old(State()), plan, ids[..i])
      {
        var id := ids[i];
        assert ids[..i + 1][..i] == ids[..i];
        FreshInOrder(ids, i);
        assert forall x :: x in ids[..i] ==> x in ids;
        WriteAllAt(start, plan.writes, ids[..i], id);
        elements.WriteEntry(id, plan.writes[id]);
      }
      WholePrefix(ids);
    }

    method DropElements(drops: seq<string>)
      modifies elements
      ensures elements.entries == old(elements.entries) - Elements(drops)
      ensures elements.log == old(elements.log) + Drops(drops)
    {
      NoElements([]);
      for i := 0 to |drops|
        invariant elements.entries == old(elements.entries) - Elements(drops[..i])
        invariant elements.log == old(elements.log) + Drops(drops[..i])
      {
        hide Elements;
        var id := drops[i];
        assert drops[..i + 1] == drops[..i] + [id] && drops[..i + 1][..i] == drops[..i];
        ElementsSnoc(drops[..i], id);
        elements.Delete(id);
      }
      WholePrefix(drops);
    }

    /** `repairLiveDoc`: one pass; the result and the sequence of writes depend on the board alone. */
    method RepairLiveDoc(scope: Option<set<string>>, policy: FilePolicy, lib: IndexLibrary) returns (wrote: bool)
      requires Valid() && Lawful(lib)
      modifies elements
      ensures PlanFor(old(State()), scope, policy, lib).writes.Keys <= old(elements.entries).Keys
      ensures State() == Repaired(old(State()), scope, policy, lib)
      ensures elements.log == old(elements.log) + WritesOf(old(State()), PlanFor(old(State()), scope, policy, lib))
      ensures wrote <==> PlanFor(old(State()), scope, policy, lib) != Plan(map[], [])
    {
      hide Lawful, Applied, PlanFor;
      var keys := Enumerate(elements.entries.Keys);
      var plan := PlanRepair(Board(elements.entries, files.entries.Keys), keys, scope, policy, lib);
      WritesAreStored(Board(elements.entries, files.entries.Keys), scope, policy, lib);
      wrote := ApplyPlan(plan);
    }

    /** Ids of the elements that refer to a removed one. */
    method ReferrersOf(removed: set<string>) returns (out: set<string>)
      ensures out == RepairLaws.ReferrersOf(State(), removed)
    {
      out := {};
      var keys := Enumerate(elements.entries.Keys);
      if removed == {} {
        return;
      }
      ghost var b := State();
      ghost var refers := id => id !in removed && RefsOf(Current(b, id)) * removed != {};
      NothingKept(refers);
      for i := 0 to |keys|
        invariant out == Elements(Keep(keys[..i], refers))
      {
        hide RefsOf, Keep;
        KeepStep(keys, i, refers);
        var id := keys[i];
        assert id in Elements(keys);
        if id !in removed {
          var el := ReadEntry(elements.entries[id]);
          RefersByCases(el, removed);
          if Get(el, "containerId").Str? && Get(el, "containerId").s in removed {
            out := out + {id};
          } else if Get(el, "frameId").Str? && Get(el, "frameId").s in removed {
            out := out + {id};
          } else if NamesBound(el, removed) {
            out := out + {id};
          }
        }
      }
      WholePrefix(keys);
      KeepFacts(keys, refers);
    }

    predicate RemovedTarget(id: string)
      reads this, elements
    {
      if id !in elements.entries || !elements.entries[id].YMap? then true
      else Get(elements.entries[id].fields, "isDeleted") == Bool(true)
    }

    /** The element observer of `attachWhiteboardRepair`: repair's own transactions are skipped. */
    method OnElements(events: seq<ElementEvent>, byRepair: bool, lib: IndexLibrary)
      requires Valid() && Lawful(lib)
      modifies elements
      ensures byRepair ==> elements.entries == old(elements.entries) && elements.log == old(elements.log)
      ensures !byRepair ==> State() == ElementsPass(old(State()), ChangedIds(events), lib)
    {
      hide Lawful, Repaired, ChangedIds, RepairLaws.ReferrersOf, IsRemovedTarget;
      if byRepair {
        return;
      }
      var changed := {};
      assert ChangedIds([]) == {} by {
        NoChanges();
      }
      for i := 0 to |events|
        invariant changed == ChangedIds(events[..i]) && State() == old(State())
      {
        ChangedStep(events, i);
        match events[i]
        case TopLevel(keys) =>
          changed := changed + Elements(keys);
        case Nested(path) =>
          if |path| > 0 {
            changed := changed + {path[0]};
          }
      }
      assert events[..|events|] == events;
      if changed == {} {
        return;
      }
      var removed := set id | id in changed && RemovedTarget(id);
      RemovedIs(State(), changed);
      assert removed == RemovedAmong(State(), changed);
      var referrers := ReferrersOf(removed);
      var wrote := RepairLiveDoc(Some(changed + referrers), NoDrop, lib);
    }

    /** The file observer: only a deletion starts a pass, over the whole board. */
    method OnFiles(events: seq<FileEvent>, byRepair: bool, lib: IndexLibrary)
      requires Valid() && Lawful(lib)
      modifies elements
      ensures byRepair ==> elements.entries == old(elements.entries) && elements.log == old(elements.log)
      ensures !byRepair ==> State() == FilesPass(old(State()), DeletedIds(events), lib)
    {
      hide Lawful, Repaired, DeletedIds, DeletedKeys;
      if byRepair {
        return;
      }
      var deleted := {};
      assert DeletedIds([]) == {} by {
        NoDeletes();
      }
      for i := 0 to |events|
        invariant deleted == DeletedIds(events[..i]) && State() == old(State())
      {
        DeletedStep(events, i);
        match events[i]
        case FileKeys(changes) =>
          var gone := DeletedAmong(changes);
          deleted := deleted + gone;
        case NestedFile =>
      }
      assert events[..|events|] == events;
      if deleted == {} {
        return;
      }
      var wrote := RepairLiveDoc(None, JustDeleted(deleted), lib);
    }

    /**
     * `coldRepairLiveDoc`: the state of the live document is repaired on a scratch document, and
     * the result merged back, unless nothing changed. `own` is the scratch document's throwaway
     * id, `present` the ids the state uses, and `writer` the id the changes are written under.
     */
    method ColdRepair(present: set<int>, own: int, lib: IndexLibrary) returns (changed: bool, writer: int)
      requires Valid() && Lawful(lib)
      modifies elements
      ensures IsGreatestFree(writer, present + {own}) && clientId == old(clientId)
      ensures PlanFor(old(State()), None, ColdStart, lib).writes.Keys <= old(elements.entries).Keys
      ensures State() == Observed(old(State()), Load, lib)
      ensures elements.log == old(elements.log) + WritesOf(old(State()), PlanFor(old(State()), None, ColdStart, lib))
      ensures changed <==> PlanFor(old(State()), None, ColdStart, lib) != Plan(map[], [])
    {
      hide Lawful, PlanFor, Applied;
      var scratch;
      scratch, changed := RepairWhiteboardState(elements.entries, files.entries, present, own, lib);
      writer := scratch.clientId;
      PassAddsNothing(State(), None, ColdStart, lib);
      if changed {
        elements.Merge(scratch.elements);
      } else {
        NothingPlanned(State());
        AppendNil(elements.log);
      }
    }
  }

  /** An empty plan changes nothing and writes nothing. */
  lemma NothingPlanned(b: Board)
    ensures Applied(b, Plan(map[], [])) == b
    ensures WritesOf(b, Plan(map[], [])) == []
  {
  }

  /**
   * `repairWhiteboardState`: the state is loaded into a scratch document first, then the write id
   * is chosen, then one whole-board pass runs there.
   */
  method RepairWhiteboardState(entries: map<string, Stored>, refs: map<string, Stored>, present: set<int>, own: int, lib: IndexLibrary)
    returns (scratch: LiveBoard, changed: bool)
    requires Lawful(lib)
    ensures fresh(scratch) && fresh(scratch.elements) && fresh(scratch.files)
    ensures IsGreatestFree(scratch.clientId, present + {own})
    ensures var b := Board(entries, refs.Keys);
            && PlanFor(b, None, ColdStart, lib).writes.Keys <= entries.Keys
            && scratch.State() == Observed(b, Load, lib)
            && scratch.elements.log == WritesOf(b, PlanFor(b, None, ColdStart, lib))
            && (changed <==> PlanFor(b, None, ColdStart, lib) != Plan(map[], []))
  {
    hide Lawful, PlanFor, Applied, WritesOf;
    scratch := new LiveBoard(entries, refs, own);
    scratch.clientId := ChooseRepairClientId(present, own);
    changed := scratch.RepairLiveDoc(None, ColdStart, lib);
    AppendNil(WritesOf(Board(entries, refs.Keys), PlanFor(Board(entries, refs.Keys), None, ColdStart, lib)));
  }

  predicate NamesBound(e: Entry, removed: set<string>) {
    Get(e, "boundElements").Arr?
    && exists b :: b in Get(e, "boundElements").items && ItemId(b).Some? && ItemId(b).value in removed
  }

  lemma RefersByCases(e: Entry, removed: set<string>)
    ensures RefsOf(e) * removed != {} <==>
              || (Get(e, "containerId").Str? && Get(e, "containerId").s in removed)
              || (Get(e, "frameId").Str? && Get(e, "frameId").s in removed)
              || NamesBound(e, removed)
  {
    hide ItemId, Get;
    if NamesBound(e, removed) {
      var b :| b in Get(e, "boundElements").items && ItemId(b).Some? && ItemId(b).value in removed;
      assert ItemId(b).value in BoundIds(Get(e, "boundElements").items);
      assert ItemId(b).value in RefsOf(e) * removed;
    }
    if Get(e, "containerId").Str? && Get(e, "containerId").s in removed {
      assert Get(e, "containerId").s in RefsOf(e) * removed;
    }
    if Get(e, "frameId").Str? && Get(e, "frameId").s in removed {
      assert Get(e, "frameId").s in RefsOf(e) * removed;
    }
    if x :| x in RefsOf(e) * removed {
      assert Get(e, "boundElements").Arr? && x in BoundIds(Get(e, "boundElements").items) ==> NamesBound(e, removed);
    }
  }

  lemma RemovedIs(b: Board, changed: set<string>)
    ensures forall id :: IsRemovedTarget(b, id) <==>
              (id !in b.elements || !b.elements[id].YMap? || Get(b.elements[id].fields, "isDeleted") == Bool(true))
  {
  }

  lemma NoChanges()
    ensures ChangedIds([]) == {}
  {
  }

  lemma NoDeletes()
    ensures DeletedIds([]) == {}
  {
  }

  lemma ChangedStep(events: seq<ElementEvent>, i: nat)
    requires i < |events|
    ensures ChangedIds(events[..i + 1]) == ChangedIds(events[..i]) + EventIds(events[i])
  {
    hide EventIds;
    var more, few := events[..i + 1], events[..i];
    forall id
      ensures id in ChangedIds(more) <==> id in ChangedIds(few) + EventIds(events[i])
    {
      if k :| 0 <= k < |more| && id in EventIds(more[k]) {
        assert k < i ==> id in EventIds(few[k]);
      }
      if k :| 0 <= k < |few| && id in EventIds(few[k]) {
        assert id in EventIds(more[k]);
      }
      assert more[i] == events[i];
    }
  }

  lemma DeletedStep(events: seq<FileEvent>, i: nat)
    requires i < |events|
    ensures DeletedIds(events[..i + 1]) == DeletedIds(events[..i]) + EventDeletes(events[i])
  {
    hide EventDeletes;
    var more, few := events[..i + 1], events[..i];
    forall id
      ensures id in DeletedIds(more) <==> id in DeletedIds(few) + EventDeletes(events[i])
    {
      if k :| 0 <= k < |more| && id in EventDeletes(more[k]) {
        assert k < i ==> id in EventDeletes(few[k]);
      }
      if k :| 0 <= k < |few| && id in EventDeletes(few[k]) {
        assert id in EventDeletes(more[k]);
      }
      assert more[i] == events[i];
    }
  }

  method DeletedAmong(changes: seq<(string, bool)>) returns (gone: set<string>)
    ensures gone == DeletedKeys(changes)
  {
    gone := {};
    for i := 0 to |changes|
      invariant gone == DeletedKeys(changes[..i])
    {
      assert changes[..i + 1] == changes[..i] + [changes[i]];
      if changes[i].1 {
        gone := gone + {changes[i].0};
      }
    }
    assert changes[..|changes|] == changes;
  }

  lemma WritesAreStored(b: Board, scope: Option<set<string>>, policy: FilePolicy, lib: IndexLibrary)
    ensures PlanFor(b, scope, policy, lib).writes.Keys <= b.elements.Keys
  {
    hide Survives, Final, ObjectEquals;
  }

  lemma FreshInOrder(ids: seq<string>, i: nat)
    requires Distinct(ids) && i < |ids|
    ensures ids[i] !in ids[..i]
  {
  }
}
