/**
 * What batches keep over a whole run: stamps never go back, unmentioned entries stay, and a
 * tombstone withstands every upsert at or below the version it deleted. Then the board restore.
 */
module BoardLaws {
  import opened Prelude
  import opened Strings
  import opened JsValues
  import opened WhiteboardSchema
  import opened EntryMaps
  import opened BoardCas
  import opened WhiteboardRepair
  import opened BoardEdit
  import StateVectors
  import EditTokens

  function Run(m: Maps, batches: seq<Ops>): Maps {
    if batches == [] then m else Applied(Run(m, batches[..|batches| - 1]), batches[|batches| - 1])
  }

  lemma RunGoesOn(m: Maps, batches: seq<Ops>, ops: Ops)
    ensures Run(m, []) == m && Run(m, batches + [ops]) == Applied(Run(m, batches), ops)
  {
    hide Applied;
    assert (batches + [ops])[..|batches + [ops]| - 1] == batches;
  }

  predicate OpsWellFormed(ops: Ops) {
    forall u :: u in ops.upserts ==> WellFormed(u)
  }

  // ----- stamps -----

  /** A live stamp is never replaced by an older one, nor taken away. */
  predicate NotBefore(a: Option<Stamp>, b: Option<Stamp>) {
    a.Some? ==> b.Some? && (b.value.version > a.value.version || (b.value.version == a.value.version && b.value.nonce <= a.value.nonce))
  }

  lemma NotBeforeTransitive(a: Option<Stamp>, b: Option<Stamp>, c: Option<Stamp>)
    requires NotBefore(a, b) && NotBefore(b, c)
    ensures NotBefore(a, c)
  {
  }

  lemma {:induction false} UpsertsNeverGoBack(s: Option<Stored>, us: seq<Upsert>)
    requires forall u :: u in us ==> WellFormed(u)
    ensures NotBefore(CasOf(s), CasOf(UpsertsSlot(s, us)))
  {
    var k := HoldsTheMaximum(s, us);
    hide WellFormed, CasOf, Holds, UpsertsSlot;
  }

  lemma DeletedStamp(s: Option<Stored>, id: string)
    ensures NotBefore(CasOf(s), CasOf(DeleteSlot(s, id)))
    ensures IsEntry(s) && !Tombstoned(s.value.fields) ==> CasOf(DeleteSlot(s, id)).Some?
    ensures IsEntry(s) && !Tombstoned(s.value.fields) ==> CasOf(DeleteSlot(s, id)).value.version == CasOf(s).value.version + 1
    ensures IsEntry(s) ==> IsEntry(DeleteSlot(s, id)) && Tombstoned(DeleteSlot(s, id).value.fields)
  {
    Roles();
    hide RoleOf, NonceFor;
    if IsEntry(s) && !Tombstoned(s.value.fields) {
      var next := CoerceVersion(Get(s.value.fields, "version")) + 1;
      var e := DeleteSlot(s, id).value.fields;
      assert e["version"] == Num(next as real) && e["isDeleted"] == Bool(true);
    }
  }

  lemma {:induction false} SlotOfDeletes(els: map<string, Stored>, ids: seq<string>, id: string)
    ensures Slot(DeleteMany(els, ids), id) == if id in ids then DeleteSlot(Slot(els, id), id) else Slot(els, id)
  {
    if ids != [] {
      var front, last := ids[..|ids| - 1], ids[|ids| - 1];
      SlotOfDeletes(els, front, id);
      assert id in ids <==> id in front || id == last;
      DeleteTwice(Slot(els, id), id);
      hide DeleteSlot;
    }
  }

  lemma DeleteTwice(s: Option<Stored>, id: string)
    ensures DeleteSlot(DeleteSlot(s, id), id) == DeleteSlot(s, id)
    ensures DeleteSlot(s, id).Some? <==> s.Some?
  {
    DeletedStamp(s, id);
    hide NonceFor, CoerceVersion, Tombstoned;
  }

  /** What a batch leaves under an id: first its upserts, then its tombstone. */
  lemma SlotOfApplied(m: Maps, ops: Ops, id: string)
    ensures Slot(Applied(m, ops).elements, id)
         == var s := UpsertsSlot(Slot(m.elements, id), ForId(ops.upserts, id));
            if id in ops.deletes then DeleteSlot(s, id) else s
  {
    SlotOfDeletes(Upserts(m.elements, ops.upserts), ops.deletes, id);
    SlotOfUpserts(m.elements, ops.upserts, id);
    hide Slot, DeleteSlot, UpsertsSlot, ForId;
  }

  lemma BatchNeverGoesBack(m: Maps, ops: Ops, id: string)
    requires OpsWellFormed(ops)
    ensures NotBefore(CasOf(Slot(m.elements, id)), CasOf(Slot(Applied(m, ops).elements, id)))
  {
    var s := Slot(m.elements, id);
    var mid := UpsertsSlot(s, ForId(ops.upserts, id));
    ForIdMembers(ops.upserts, id);
    SlotOfApplied(m, ops, id);
    hide DeleteSlot, Applied, CasOf, WellFormed;
    UpsertsNeverGoBack(s, ForId(ops.upserts, id));
    DeletedStamp(mid, id);
    NotBeforeTransitive(CasOf(s), CasOf(mid), CasOf(DeleteSlot(mid, id)));
  }

  /** Over every run of batches the stamp under an id only moves forward. */
  lemma {:induction false} StampsNeverGoBack(m: Maps, batches: seq<Ops>, id: string)
    requires forall ops :: ops in batches ==> OpsWellFormed(ops)
    ensures NotBefore(CasOf(Slot(m.elements, id)), CasOf(Slot(Run(m, batches).elements, id)))
  {
    if batches != [] {
      var front, last := batches[..|batches| - 1], batches[|batches| - 1];
      StampsNeverGoBack(m, front, id);
      BatchNeverGoesBack(Run(m, front), last, id);
      hide CasOf, OpsWellFormed, Applied;
      NotBeforeTransitive(CasOf(Slot(m.elements, id)), CasOf(Slot(Run(m, front).elements, id)), CasOf(Slot(Run(m, batches).elements, id)));
    }
  }

  // ----- tombstones -----

  /** No upsert of the run for `id` is above `version`. */
  predicate UpTo(batches: seq<Ops>, id: string, version: int) {
    forall ops :: ops in batches ==> forall u :: u in ops.upserts && u.id == id ==> u.stamp.version <= version
  }

  lemma {:induction false} BelowChangesNothing(s: Option<Stored>, us: seq<Upsert>)
    requires CasOf(s).Some? && forall u :: u in us ==> u.stamp.version < CasOf(s).value.version
    ensures UpsertsSlot(s, us) == s
  {
    hide CasOf, Put;
    if us != [] {
      assert us[|us| - 1] in us;
      BelowChangesNothing(s, us[..|us| - 1]);
    }
  }

  lemma TombstoneStep(m: Maps, ops: Ops, id: string)
    requires IsEntry(Slot(m.elements, id)) && Tombstoned(Slot(m.elements, id).value.fields)
    requires forall u :: u in ops.upserts && u.id == id ==> u.stamp.version < CasOf(Slot(m.elements, id)).value.version
    ensures Slot(Applied(m, ops).elements, id) == Slot(m.elements, id)
  {
    SlotOfApplied(m, ops, id);
    ForIdMembers(ops.upserts, id);
    BelowChangesNothing(Slot(m.elements, id), ForId(ops.upserts, id));
    hide Applied, Slot, UpsertsSlot, ForId, CasOf;
  }

  lemma {:induction false} TombstoneStands(m: Maps, batches: seq<Ops>, id: string)
    requires IsEntry(Slot(m.elements, id)) && Tombstoned(Slot(m.elements, id).value.fields)
    requires UpTo(batches, id, CasOf(Slot(m.elements, id)).value.version - 1)
    ensures Slot(Run(m, batches).elements, id) == Slot(m.elements, id)
  {
    hide Applied, Slot, Tombstoned, CasOf;
    if batches != [] {
      var front, last := batches[..|batches| - 1], batches[|batches| - 1];
      assert last in batches;
      TombstoneStands(m, front, id);
      TombstoneStep(Run(m, front), last, id);
    }
  }

  /**
   * Deleting an element at some version leaves a tombstone that no run of batches clears or
   * alters as long as their upserts for it are at or below that version.
   */
  lemma DeletionStands(m: Maps, id: string, batches: seq<Ops>)
    requires IsEntry(Slot(m.elements, id)) && !Tombstoned(Slot(m.elements, id).value.fields)
    requires UpTo(batches, id, CasOf(Slot(m.elements, id)).value.version)
    ensures var after := Applied(m, Ops([], [id], [], []));
            && IsEntry(Slot(after.elements, id)) && Tombstoned(Slot(after.elements, id).value.fields)
            && Slot(Run(after, batches).elements, id) == Slot(after.elements, id)
  {
    var s := Slot(m.elements, id);
    SlotOfApplied(m, Ops([], [id], [], []), id);
    DeletedStamp(s, id);
    hide Applied, Slot, Tombstoned, DeleteSlot, CasOf;
    TombstoneStands(Applied(m, Ops([], [id], [], [])), batches, id);
  }

  /** Ids that a batch neither upserts nor deletes keep what they hold. */
  lemma BatchTouchesOnly(m: Maps, ops: Ops, id: string)
    requires id !in ops.deletes && forall u :: u in ops.upserts ==> u.id != id
    ensures Slot(Applied(m, ops).elements, id) == Slot(m.elements, id)
  {
    SlotOfApplied(m, ops, id);
    NoneForId(ops.upserts, id);
  }

  // ----- restoring a board version -----

  /** A decoded snapshot: which shared roots it carries, and its two board maps. */
  datatype Snapshot = Snapshot(hasFragment: bool, sheetCells: nat, elements: map<string, Stored>, files: map<string, Stored>)

  predicate BoardShaped(t: Snapshot) {
    && !t.hasFragment
    && t.sheetCells == 0
    && (forall id :: id in t.elements ==> t.elements[id].YMap?)
    && (forall id :: id in t.files ==> t.files[id].YMap?)
  }

  predicate Untouched(m: Maps, t: Snapshot) {
    t.elements == map[] && m.elements == map[] && t.files == map[] && m.files == map[]
  }

  function Reconciled(live: map<string, Stored>, target: map<string, Stored>): map<string, Stored> {
    map id | id in target :: YMap(Written(WriteTarget(Slot(live, id)), ReadEntry(target[id])))
  }

  /** Only the entries whose id the target has. */
  function Trimmed(live: map<string, Stored>, wanted: set<string>): map<string, Stored> {
    map id | id in live && id in wanted :: live[id]
  }

  method DropStrays(live: EntryMap, wanted: set<string>)
    modifies live
    ensures live.entries == Trimmed(old(live.entries), wanted)
    ensures StructsIn(live.log) == StructsIn(old(live.log))
  {
    hide StructsIn;
    var keys := Enumerate(live.entries.Keys);
    ghost var start := live.entries;
    ghost var gone := {};
    for i := 0 to |keys|
      invariant gone == set id | id in Elements(keys[..i]) && id !in wanted
      invariant live.entries == start - gone
      invariant StructsIn(live.log) == StructsIn(old(live.log))
    {
      hide Elements, StructsIn;
      assert keys[..i + 1] == keys[..i] + [keys[i]];
      ElementsSnoc(keys[..i], keys[i]);
      if keys[i] !in wanted {
        StructsSnoc(live.log, DropEntry(keys[i]));
        live.Delete(keys[i]);
        gone := gone + {keys[i]};
      }
    }
    assert keys[..|keys|] == keys;
  }

  /** Entries written in the order of `ids`. */
  function WriteMany(live: map<string, Stored>, target: map<string, Stored>, ids: seq<string>): map<string, Stored> {
    if ids == [] then live
    else
      var id, before := ids[|ids| - 1], WriteMany(live, target, ids[..|ids| - 1]);
      if id in target then before[id := YMap(Written(WriteTarget(Slot(before, id)), ReadEntry(target[id])))] else before
  }

  lemma {:induction false} WriteManyAt(live: map<string, Stored>, target: map<string, Stored>, ids: seq<string>, id: string)
    requires Distinct(ids) && forall x :: x in ids ==> x in target
    ensures Slot(WriteMany(live, target, ids), id)
         == if id in ids then Some(YMap(Written(WriteTarget(Slot(live, id)), ReadEntry(target[id])))) else Slot(live, id)
  {
    hide Written, WriteTarget, ReadEntry;
    if ids != [] {
      var front, last := ids[..|ids| - 1], ids[|ids| - 1];
      assert last !in front && forall x :: x in front ==> x in ids;
      assert id in ids <==> id in front || id == last;
      WriteManyAt(live, target, front, id);
    }
  }

  method WriteEntries(live: EntryMap, target: map<string, Stored>, ids: seq<string>)
    requires Distinct(ids) && forall x :: x in ids ==> x in target
    modifies live
    ensures live.entries == WriteMany(old(live.entries), target, ids)
    ensures StructsIn(live.log) == StructsIn(old(live.log)) + StructsFor(old(live.entries), target, ids)
  {
    hide Written, WriteTarget, ReadEntry, Slot, EntryWrites, StructsIn, WriteMany, StructsFor;
    NothingWritten(live.entries, target);
    assert ids[..0] == [];
    for i := 0 to |ids|
      invariant live.entries == WriteMany(old(live.entries), target, ids[..i])
      invariant StructsIn(live.log) == StructsIn(old(live.log)) + StructsFor(old(live.entries), target, ids[..i])
    {
      WriteStep(old(live.entries), target, ids, i);
      StructsConcat(live.log, EntryWrites(ids[i], Slot(live.entries, ids[i]), ReadEntry(target[ids[i]])));
      live.WriteEntry(ids[i], ReadEntry(target[ids[i]]));
    }
    assert ids[..|ids|] == ids;
  }

  lemma NothingWritten(live: map<string, Stored>, target: map<string, Stored>)
    ensures WriteMany(live, target, []) == live && StructsFor(live, target, []) == 0
  {
  }

  lemma WriteStep(live: map<string, Stored>, target: map<string, Stored>, ids: seq<string>, i: nat)
    requires Distinct(ids) && i < |ids| && forall x :: x in ids ==> x in target
    ensures var before, id := WriteMany(live, target, ids[..i]), ids[i];
            && Slot(before, id) == Slot(live, id)
            && WriteMany(live, target, ids[..i + 1]) == before[id := YMap(Written(WriteTarget(Slot(before, id)), ReadEntry(target[id])))]
            && StructsFor(live, target, ids[..i + 1]) == StructsFor(live, target, ids[..i]) + StructsIn(EntryWrites(id, Slot(before, id), ReadEntry(target[id])))
  {
    hide Written, WriteTarget, ReadEntry, EntryWrites, StructsIn, Slot;
    assert ids[..i + 1][..i] == ids[..i];
    assert ids[i] in ids && ids[i] !in ids[..i];
    WriteManyAt(live, target, ids[..i], ids[i]);
  }

  // ----- the structs a reconcile adds -----

  /** A new entry and a set field are one struct each; deletions add none. */
  function StructsIn(log: seq<Write>): nat {
    if log == [] then 0
    else StructsIn(log[..|log| - 1]) + (if log[|log| - 1].NewEntry? || log[|log| - 1].SetField? then 1 else 0)
  }

  lemma StructsSnoc(log: seq<Write>, w: Write)
    ensures StructsIn(log + [w]) == StructsIn(log) + (if w.NewEntry? || w.SetField? then 1 else 0)
  {
    assert (log + [w])[..|log + [w]| - 1] == log;
  }

  lemma {:induction false} StructsConcat(a: seq<Write>, b: seq<Write>)
    ensures StructsIn(a + b) == StructsIn(a) + StructsIn(b)
  {
    if b == [] {
      assert a + b == a;
    } else {
      StructsConcat(a, b[..|b| - 1]);
      assert (a + b)[..|a + b| - 1] == a + b[..|b| - 1];
    }
  }

  lemma {:induction false} SetsAddNothingIff(id: string, cur: Entry, final: Entry, fields: seq<string>)
    ensures StructsIn(Sets(id, cur, final, fields)) == 0 <==> forall f :: f in fields ==> !Differs(cur, final, f)
  {
    hide StructsIn, FieldEquals, Get;
    if fields == [] {
      NoStructs();
    } else {
      var front, f := fields[..|fields| - 1], fields[|fields| - 1];
      SetsAddNothingIff(id, cur, final, front);
      assert forall g :: g in fields <==> g in front || g == f;
      StructsSnoc(Sets(id, cur, final, front), SetField(id, f, Get(final, f)));
      assert Sets(id, cur, final, fields)
          == Sets(id, cur, final, front) + (if Differs(cur, final, f) then [SetField(id, f, Get(final, f))] else []);
      assert Sets(id, cur, final, front) + [] == Sets(id, cur, final, front);
    }
  }

  lemma NoStructs()
    ensures StructsIn([]) == 0
  {
  }

  lemma {:induction false} DeletesAddNothing(id: string, final: Entry, fields: seq<string>)
    ensures StructsIn(Deletes(id, final, fields)) == 0
  {
    if fields != [] {
      var front, f := fields[..|fields| - 1], fields[|fields| - 1];
      DeletesAddNothing(id, final, front);
      StructsSnoc(Deletes(id, final, front), DeleteField(id, f));
      assert Deletes(id, final, front) + [] == Deletes(id, final, front);
    }
  }

  /** The entry is there and agrees with the target on all the target's fields. */
  predicate UpToDate(s: Option<Stored>, final: Entry) {
    IsEntry(s) && forall f :: f in final ==> !Differs(s.value.fields, final, f)
  }

  lemma EntryAddsNothingIff(id: string, s: Option<Stored>, final: Entry)
    ensures StructsIn(EntryWrites(id, s, final)) == 0 <==> UpToDate(s, final)
  {
    var start: seq<Write> := if IsEntry(s) then [] else [NewEntry(id)];
    var sets, deletes := Sets(id, WriteTarget(s), final, SortedKeys(final.Keys)), Deletes(id, final, SortedKeys(WriteTarget(s).Keys));
    SetsAddNothingIff(id, WriteTarget(s), final, SortedKeys(final.Keys));
    DeletesAddNothing(id, final, SortedKeys(WriteTarget(s).Keys));
    assert forall f :: f in SortedKeys(final.Keys) <==> f in Elements(SortedKeys(final.Keys));
    hide Sets, Deletes, SortedKeys, Differs;
    StructsConcat(start, sets);
    StructsConcat(start + sets, deletes);
    StructsSnoc([], NewEntry(id));
    assert [] + [NewEntry(id)] == [NewEntry(id)];
  }

  /** What writing the target's entries over `live` adds. */
  ghost function StructsFor(live: map<string, Stored>, target: map<string, Stored>, ids: seq<string>): nat {
    if ids == [] then 0
    else
      var id := ids[|ids| - 1];
      StructsFor(live, target, ids[..|ids| - 1]) + (if id in target then StructsIn(EntryWrites(id, Slot(live, id), ReadEntry(target[id]))) else 0)
  }

  lemma {:induction false} NothingAddedIff(live: map<string, Stored>, target: map<string, Stored>, ids: seq<string>)
    requires forall x :: x in ids ==> x in target
    ensures StructsFor(live, target, ids) == 0 <==> forall x :: x in ids ==> UpToDate(Slot(live, x), ReadEntry(target[x]))
  {
    hide UpToDate, EntryWrites, StructsIn, ReadEntry;
    if ids != [] {
      var front, id := ids[..|ids| - 1], ids[|ids| - 1];
      assert id in ids && forall x :: x in ids <==> x in front || x == id;
      NothingAddedIff(live, target, front);
      EntryAddsNothingIff(id, Slot(live, id), ReadEntry(target[id]));
    }
  }

  /** Making `live` the target takes deletions only. */
  predicate OnlyDeletes(live: map<string, Stored>, target: map<string, Stored>) {
    forall id :: id in target ==> UpToDate(Slot(live, id), ReadEntry(target[id]))
  }

  lemma TrimmedAddsAlike(live: map<string, Stored>, target: map<string, Stored>)
    ensures OnlyDeletes(Trimmed(live, target.Keys), target) <==> OnlyDeletes(live, target)
  {
    hide UpToDate, ReadEntry;
    assert forall id :: id in target ==> Slot(Trimmed(live, target.Keys), id) == Slot(live, id);
  }

  lemma TrimAndWrite(live: map<string, Stored>, target: map<string, Stored>, ids: seq<string>)
    requires Distinct(ids) && Elements(ids) == target.Keys
    ensures forall x :: x in ids ==> x in target
    ensures WriteMany(Trimmed(live, target.Keys), target, ids) == Reconciled(live, target)
  {
    assert forall x :: x in ids <==> x in Elements(ids);
    var out := WriteMany(Trimmed(live, target.Keys), target, ids);
    forall id
      ensures Slot(out, id) == Slot(Reconciled(live, target), id)
    {
      hide Written, ReadEntry, WriteMany;
      WriteManyAt(Trimmed(live, target.Keys), target, ids, id);
    }
    hide WriteMany, Reconciled, Trimmed;
    SameSlots(out, Reconciled(live, target));
  }

  lemma SameSlots(a: map<string, Stored>, b: map<string, Stored>)
    requires forall id :: Slot(a, id) == Slot(b, id)
    ensures a == b
  {
    forall id
      ensures id in a <==> id in b
      ensures id in a && id in b ==> a[id] == b[id]
    {
      assert Slot(a, id) == Slot(b, id);
    }
  }

  method ReconcileEntryMap(live: EntryMap, target: map<string, Stored>)
    modifies live
    ensures live.entries == Reconciled(old(live.entries), target)
    ensures StructsIn(live.log) >= StructsIn(old(live.log))
    ensures StructsIn(live.log) == StructsIn(old(live.log)) <==> OnlyDeletes(old(live.entries), target)
  {
    hide Reconciled, WriteMany, Trimmed, StructsIn, StructsFor, UpToDate, ReadEntry;
    DropStrays(live, target.Keys);
    var ids := Enumerate(target.Keys);
    TrimAndWrite(old(live.entries), target, ids);
    assert forall x :: x in ids <==> x in Elements(ids);
    NothingAddedIff(live.entries, target, ids);
    TrimmedAddsAlike(old(live.entries), target);
    WriteEntries(live, target, ids);
  }

  /** The structs created in the two board maps. */
  function Structs(doc: LiveBoard): nat
    reads doc, doc.elements, doc.files
  {
    StructsIn(doc.elements.log) + StructsIn(doc.files.log)
  }

  /** `reconcileBoardMaps`: refused before anything is touched, or the live board becomes the target. */
  method ReconcileBoardMaps(doc: LiveBoard, target: Snapshot) returns (r: Result<bool, BoardError>)
    requires doc.Valid()
    modifies doc.elements, doc.files
    ensures r.Err? <==> !BoardShaped(target)
    ensures r.Err? ==> r.error == BoardSnapshotInvalid
    ensures r.Err? || r == Ok(false) ==>
              MapsOf(doc) == old(MapsOf(doc)) && doc.elements.log == old(doc.elements.log) && doc.files.log == old(doc.files.log)
    ensures r == Ok(false) <==> BoardShaped(target) && Untouched(old(MapsOf(doc)), target)
    ensures r.Ok? ==> MapsOf(doc) == Maps(Reconciled(old(doc.elements.entries), target.elements), Reconciled(old(doc.files.entries), target.files))
    ensures Structs(doc) >= old(Structs(doc))
    ensures r.Ok? ==> (Structs(doc) == old(Structs(doc)) <==> OnlyDeletes(old(doc.elements.entries), target.elements) && OnlyDeletes(old(doc.files.entries), target.files))
  {
    hide StructsIn, UpToDate;
    if !BoardShaped(target) {
      return Err(BoardSnapshotInvalid);
    }
    if target.elements == map[] && doc.elements.entries == map[] && target.files == map[] && doc.files.entries == map[] {
      return Ok(false);
    }
    ReconcileEntryMap(doc.elements, target.elements);
    ReconcileEntryMap(doc.files, target.files);
    return Ok(true);
  }

  /**
   * `applyBoardRestoreToLiveDoc`, up to its transaction: nothing bumps the edit counter, so the
   * base-version token changes exactly when some target entry was missing or differed.
   */
  method RestoreBoard(doc: LiveBoard, l: EditTokens.Live, target: Snapshot) returns (r: Result<EditTokens.Live, BoardError>)
    requires doc.Valid()
    modifies doc.elements, doc.files
    ensures r.Err? <==> !BoardShaped(target)
    ensures r.Err? ==> r.error == BoardSnapshotInvalid && MapsOf(doc) == old(MapsOf(doc)) && Structs(doc) == old(Structs(doc))
    ensures r.Ok? ==> MapsOf(doc) == Maps(Reconciled(old(doc.elements.entries), target.elements), Reconciled(old(doc.files.entries), target.files))
    ensures r.Ok? ==> Structs(doc) >= old(Structs(doc)) && r.value == EditTokens.Next(l, EditTokens.BoardRestore(Structs(doc) - old(Structs(doc))))
    ensures r.Ok? ==> (r.value.sv == l.sv <==> OnlyDeletes(old(doc.elements.entries), target.elements) && OnlyDeletes(old(doc.files.entries), target.files))
  {
    hide StructsIn, UpToDate, Reconciled, BoardShaped;
    var before := Structs(doc);
    var reconciled := ReconcileBoardMaps(doc, target);
    if reconciled.Err? {
      return Err(reconciled.error);
    }
    var added := Structs(doc) - before;
    EditTokens.BoardRestoreRetiresIff(l, added);
    return Ok(EditTokens.Next(l, EditTokens.BoardRestore(added)));
  }

  /**
   * No live field with an inherited name outlasts a target that lacks it, and no empty object of
   * the target under `__proto__` is taken for what the entry inherits.
   */
  predicate RestoresCleanly(cur: Entry, final: Entry) {
    && (forall f :: f in cur && f in INHERITED && f !in final ==> cur[f] == Undefined)
    && ("__proto__" in final && final["__proto__"].Obj? && JsonForm(final["__proto__"]) == Obj([]) ==> "__proto__" in cur)
  }

  lemma RestoredField(cur: Entry, final: Entry, f: string)
    ensures f in final && (f in cur || Differs(cur, final, f)) ==> FieldEquals(Get(Written(cur, final), f), Get(final, f))
    ensures f !in INHERITED ==> FieldEquals(Get(Written(cur, final), f), Get(final, f))
    ensures f !in final && f in INHERITED ==> Get(Written(cur, final), f) == Get(cur, f)
    ensures f in final && f !in cur && !Differs(cur, final, f) ==> Get(Written(cur, final), f) == Undefined
  {
    WrittenAt(cur, final, f);
    FieldEqualsLaws(Get(final, f), Get(final, f), Undefined);
    hide Written, INHERITED, JsonForm;
  }

  /** One entry comes out as the target's exactly when it restores cleanly. */
  lemma WrittenIsExactIff(cur: Entry, final: Entry)
    ensures Same(Written(cur, final), final) <==> RestoresCleanly(cur, final)
  {
    InheritedNames();
    var out := Written(cur, final);
    forall f
      ensures f in INHERITED && f !in final ==> (FieldEquals(Get(out, f), Get(final, f)) <==> Get(cur, f) == Undefined)
      ensures f !in INHERITED || (f in final && f in cur) ==> FieldEquals(Get(out, f), Get(final, f))
      ensures f in INHERITED && f in final && f !in cur ==> (FieldEquals(Get(out, f), Get(final, f)) <==> Differs(cur, final, f))
    {
      RestoredField(cur, final, f);
      FieldEqualsLaws(Get(final, f), Undefined, Undefined);
      FieldEqualsLaws(Undefined, Get(final, f), Undefined);
      InheritedDiffers(cur, final, f);
      FieldEqualsLaws(Get(out, f), Undefined, Undefined);
      hide Written, Differs, INHERITED, FieldEquals;
    }
    InheritedDiffers(cur, final, "__proto__");
    hide Written, INHERITED, FieldEquals;
    if RestoresCleanly(cur, final) {
      forall f
        ensures FieldEquals(Get(out, f), Get(final, f))
      {
        InheritedDiffers(cur, final, f);
      }
    }
    if Same(out, final) {
      assert FieldEquals(Get(out, "__proto__"), Get(final, "__proto__"));
      forall f | f in cur && f in INHERITED && f !in final
        ensures cur[f] == Undefined
      {
        assert FieldEquals(Get(out, f), Get(final, f));
      }
    }
  }

  lemma InheritedDiffers(cur: Entry, final: Entry, f: string)
    ensures f in INHERITED && f !in cur ==>
              (Differs(cur, final, f) <==> f != "__proto__" || !Get(final, f).Obj? || JsonForm(Get(final, f)) != Obj([]))
    ensures !Differs(cur, final, f) && f in INHERITED && f !in cur ==> Get(final, f) != Undefined
  {
    hide INHERITED, JsonForm;
  }

  /**
   * A restored entry is the target's, field for field, exactly when it restores cleanly; under
   * names that are not inherited it always is.
   */
  lemma RestoreIsExactIff(live: map<string, Stored>, target: map<string, Stored>, id: string)
    requires forall id :: id in target ==> target[id].YMap?
    ensures Reconciled(live, target).Keys == target.Keys
    ensures id in target ==> Reconciled(live, target)[id].YMap?
    ensures id in target ==>
              (Same(Reconciled(live, target)[id].fields, target[id].fields) <==> RestoresCleanly(WriteTarget(Slot(live, id)), target[id].fields))
    ensures id in target ==> forall f :: f !in INHERITED ==> FieldEquals(Get(Reconciled(live, target)[id].fields, f), Get(target[id].fields, f))
  {
    if id in target {
      var cur, final := WriteTarget(Slot(live, id)), target[id].fields;
      WrittenIsExactIff(cur, final);
      hide Written, Same, RestoresCleanly, FieldEquals, INHERITED;
      forall f | f !in INHERITED
        ensures FieldEquals(Get(Written(cur, final), f), Get(final, f))
      {
        RestoredField(cur, final, f);
      }
    }
  }

  /** A live field named `toString` outlasts the restore of an element that has none. */
  lemma StrayFieldOutlastsRestore()
    ensures var plain, stray := map["id" := Str("e")], map["id" := Str("e"), "toString" := Str("x")];
            && Reconciled(map["e" := YMap(stray)], map["e" := YMap(plain)])["e"] == YMap(stray)
            && !Same(stray, plain)
  {
    InheritedNames();
    ApartNames();
    hide INHERITED, Written;
    var plain, stray: Entry := map["id" := Str("e")], map["id" := Str("e"), "toString" := Str("x")];
    var out := Written(stray, plain);
    forall f
      ensures f in out <==> f in stray
      ensures f in out ==> Get(out, f) == Get(stray, f)
    {
      WrittenAt(stray, plain, f);
    }
    assert out == stray;
    assert !FieldEquals(Get(stray, "toString"), Get(plain, "toString"));
  }

  lemma WrittenTwice(cur: Entry, final: Entry)
    ensures Written(Written(cur, final), final) == Written(cur, final)
  {
    hide JsonForm;
  }

  /** Restoring twice is restoring once: the second reconcile leaves every entry identical. */
  lemma RestoreIsIdempotent(live: map<string, Stored>, target: map<string, Stored>)
    requires forall id :: id in target ==> target[id].YMap?
    ensures Reconciled(Reconciled(live, target), target) == Reconciled(live, target)
  {
    var once := Reconciled(live, target);
    var twice := Reconciled(once, target);
    forall id | id in target
      ensures twice[id] == once[id]
    {
      WrittenTwice(WriteTarget(Slot(live, id)), target[id].fields);
      hide Written;
    }
    assert twice.Keys == once.Keys;
    hide *;
    assert twice == once;
  }
}
