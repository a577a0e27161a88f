/**
 * The log of a repair: made again on the board it started from, its changes yield the repaired
 * board, and they come in one order, whatever the order in which the board was enumerated.
 */
module RepairLog {
  import opened Prelude
  import opened Strings
  import opened JsValues
  import opened WhiteboardSchema
  import opened EntryMaps
  import opened RepairSpec
  import opened WhiteboardRepair
  import opened SeqFacts

  // ----- the changes, made again -----

  function Redone(els: map<string, Stored>, w: Write): map<string, Stored> {
    match w
    case NewEntry(id) => els[id := YMap(map[])]
    case SetField(id, field, value) => if id in els && els[id].YMap? then els[id := YMap(els[id].fields[field := value])] else els
    case DeleteField(id, field) => if id in els && els[id].YMap? then els[id := YMap(els[id].fields - {field})] else els
    case DropEntry(id) => els - {id}
  }

  function Replay(els: map<string, Stored>, log: seq<Write>): map<string, Stored> {
    if log == [] then els else Redone(Replay(els, log[..|log| - 1]), log[|log| - 1])
  }

  lemma {:induction false} ReplayConcat(els: map<string, Stored>, a: seq<Write>, b: seq<Write>)
    ensures Replay(els, a + b) == Replay(Replay(els, a), b)
  {
    hide Redone;
    if b == [] {
      assert a + b == a;
    } else {
      ReplayConcat(els, a, b[..|b| - 1]);
      assert (a + b)[..|a + b| - 1] == a + b[..|b| - 1];
    }
  }

  lemma ReplayOne(els: map<string, Stored>, w: Write)
    ensures Replay(els, []) == els && Replay(els, [w]) == Redone(els, w)
  {
    hide Redone;
    assert [w][..0] == [];
  }

  lemma ReplaySnoc(els: map<string, Stored>, log: seq<Write>, w: Write)
    ensures Replay(els, log + [w]) == Redone(Replay(els, log), w)
  {
    ReplayConcat(els, log, [w]);
    ReplayOne(Replay(els, log), w);
    hide *;
  }

  lemma RedoneField(els: map<string, Stored>, id: string, e: Entry, f: string, v: Val)
    ensures Redone(els[id := YMap(e)], SetField(id, f, v)) == els[id := YMap(e[f := v])]
    ensures Redone(els[id := YMap(e)], DeleteField(id, f)) == els[id := YMap(e - {f})]
  {
  }

  lemma SameEntry(els: map<string, Stored>, id: string, e: Entry)
    requires id in els && els[id] == YMap(e)
    ensures els[id := YMap(e)] == els
  {
  }

  lemma {:induction false} ReplaySets(els: map<string, Stored>, id: string, cur: Entry, final: Entry, fields: seq<string>)
    requires id in els && els[id] == YMap(cur)
    ensures Replay(els, Sets(id, cur, final, fields)) == els[id := YMap(SetAll(cur, final, fields))]
  {
    hide *;
    if fields == [] {
      NoFields(id, cur, final);
      ReplayOne(els, NewEntry(id));
      SameEntry(els, id, cur);
    } else {
      var n := |fields| - 1;
      var front, f := fields[..n], fields[n];
      ReplaySets(els, id, cur, final, front);
      SetStep(id, cur, final, fields, n);
      WholePrefix(fields);
      ReplaySnoc(els, Sets(id, cur, final, front), SetField(id, f, Get(final, f)));
      RedoneField(els, id, SetAll(cur, final, front), f, Get(final, f));
      AppendNil(Sets(id, cur, final, front));
    }
  }

  lemma {:induction false} ReplayDeletes(els: map<string, Stored>, id: string, e: Entry, final: Entry, fields: seq<string>)
    requires id in els && els[id] == YMap(e)
    ensures Replay(els, Deletes(id, final, fields)) == els[id := YMap(DeleteAll(e, final, fields))]
  {
    hide *;
    if fields == [] {
      NoFields(id, e, final);
      ReplayOne(els, NewEntry(id));
      SameEntry(els, id, e);
    } else {
      var n := |fields| - 1;
      var front, f := fields[..n], fields[n];
      ReplayDeletes(els, id, e, final, front);
      DeleteStep(id, e, final, fields, n);
      WholePrefix(fields);
      ReplaySnoc(els, Deletes(id, final, front), DeleteField(id, f));
      RedoneField(els, id, DeleteAll(e, final, front), f, Null);
      AppendNil(Deletes(id, final, front));
    }
  }

  /** Opening an entry leaves the map that its fields are written into. */
  lemma ReplayStart(els: map<string, Stored>, id: string)
    ensures Replay(els, if IsEntry(Slot(els, id)) then [] else [NewEntry(id)]) == els[id := YMap(WriteTarget(Slot(els, id)))]
  {
    SlotOf(els, id);
    hide IsEntry, WriteTarget, Slot;
    ReplayOne(els, NewEntry(id));
    if IsEntry(Slot(els, id)) {
      SameEntry(els, id, WriteTarget(Slot(els, id)));
    }
  }

  lemma EntryParts(id: string, s: Option<Stored>, final: Entry, fields: seq<string>, stale: seq<string>)
    requires fields == SortedKeys(final.Keys) && stale == SortedKeys(WriteTarget(s).Keys)
    ensures EntryWrites(id, s, final)
         == (if IsEntry(s) then [] else [NewEntry(id)]) + Sets(id, WriteTarget(s), final, fields) + Deletes(id, final, stale)
    ensures StrictlySorted(fields) && forall f :: f in fields <==> f in final
    ensures StrictlySorted(stale) && forall f :: f in stale <==> f in WriteTarget(s)
  {
    assert forall f :: f in fields <==> f in Elements(fields);
    assert forall f :: f in stale <==> f in Elements(stale);
    hide SortedKeys, WriteTarget, IsEntry, Sets, Deletes, StrictlySorted;
  }

  lemma ReplayEntry(els: map<string, Stored>, id: string, final: Entry)
    ensures Replay(els, EntryWrites(id, Slot(els, id), final)) == els[id := YMap(Written(WriteTarget(Slot(els, id)), final))]
  {
    hide *;
    var s := Slot(els, id);
    var cur := WriteTarget(s);
    var fields, stale := SortedKeys(final.Keys), SortedKeys(cur.Keys);
    EntryParts(id, s, final, fields, stale);
    var start: seq<Write> := if IsEntry(s) then [] else [NewEntry(id)];
    var base, sets, deletes, e := els[id := YMap(cur)], Sets(id, cur, final, fields), Deletes(id, final, stale), SetAll(cur, final, fields);
    ReplayStart(els, id);
    FieldLoops(cur, final, fields, stale);
    ReplaySets(base, id, cur, final, fields);
    ReplayDeletes(base[id := YMap(e)], id, e, final, stale);
    ReplayConcat(els, start, sets);
    ReplayConcat(els, start + sets, deletes);
    assert base[id := YMap(e)][id := YMap(Written(cur, final))] == els[id := YMap(Written(cur, final))];
  }

  lemma {:induction false} ReplayAll(b: Board, plan: Plan, ids: seq<string>)
    requires Distinct(ids) && Planned(b.elements, plan.writes, ids)
    ensures forall id :: id in ids ==> id in plan.writes && id in b.elements
    ensures Replay(b.elements, AllWrites(b, plan, ids)) == WriteAll(b.elements, plan.writes, ids)
  {
    if ids == [] {
      ReplayOne(b.elements, NewEntry(""));
    } else {
      hide Replay, EntryWrites, Written, WriteTarget;
      var front, id := ids[..|ids| - 1], ids[|ids| - 1];
      assert id in ids && (forall x :: x in front ==> x in ids) && id !in front;
      ReplayAll(b, plan, front);
      WriteAllAt(b.elements, plan.writes, front, id);
      var before := WriteAll(b.elements, plan.writes, front);
      assert Slot(before, id) == Some(b.elements[id]);
      ReplayEntry(before, id, plan.writes[id]);
      ReplayConcat(b.elements, AllWrites(b, plan, front), EntryWrites(id, Some(b.elements[id]), plan.writes[id]));
    }
  }

  lemma DropsSnoc(ids: seq<string>)
    requires ids != []
    ensures Drops(ids) == Drops(ids[..|ids| - 1]) + [DropEntry(ids[|ids| - 1])]
  {
  }

  lemma DroppedToo(els: map<string, Stored>, gone: set<string>, id: string)
    ensures Redone(els - gone, DropEntry(id)) == els - (gone + {id})
  {
  }

  lemma {:induction false} ReplayDrops(els: map<string, Stored>, ids: seq<string>)
    ensures Replay(els, Drops(ids)) == els - Elements(ids)
  {
    if ids == [] {
      ReplayOne(els, NewEntry(""));
      NoElements(ids);
    } else {
      hide *;
      var front, id := ids[..|ids| - 1], ids[|ids| - 1];
      ReplayDrops(els, front);
      DropsSnoc(ids);
      ReplaySnoc(els, Drops(front), DropEntry(id));
      ElementsSnoc(front, id);
      DroppedToo(els, Elements(front), id);
      assert ids == front + [id];
    }
  }

  /** What a plan logs, made again, is what the plan does. */
  lemma LogTells(b: Board, plan: Plan)
    requires plan.writes.Keys <= b.elements.Keys
    ensures Replay(b.elements, WritesOf(b, plan)) == Applied(b, plan).elements
  {
    var ids := SortedKeys(plan.writes.Keys);
    SortedIsDistinct(ids);
    assert forall id :: id in ids <==> id in Elements(ids);
    assert WritesOf(b, plan) == AllWrites(b, plan, ids) + Drops(plan.drops);
    hide SortedKeys, Applied, Elements, AllWrites, Drops, Replay, WritesOf, WriteAll, Distinct;
    ReplayAll(b, plan, ids);
    AppliedIs(b, plan, ids);
    ReplayDrops(WriteAll(b.elements, plan.writes, ids), plan.drops);
    ReplayConcat(b.elements, AllWrites(b, plan, ids), Drops(plan.drops));
  }

  // ----- the order of the changes -----

  /** An entry is opened, then fields are set, then stale ones deleted. */
  function Turn(w: Write): nat {
    match w
    case NewEntry(_) => 0
    case SetField(_, _, _) => 1
    case DeleteField(_, _) => 2
    case DropEntry(_) => 3
  }

  function FieldOf(w: Write): string {
    match w
    case SetField(_, field, _) => field
    case DeleteField(_, field) => field
    case _ => ""
  }

  /** Rewrites come before drops, each by id; within an entry by turn, and then by field. */
  predicate Precedes(v: Write, w: Write) {
    if v.DropEntry? || w.DropEntry? then w.DropEntry? && (v.DropEntry? ==> Less(v.id, w.id))
    else Less(v.id, w.id) || (v.id == w.id && (Turn(v) < Turn(w) || (Turn(v) == Turn(w) && Less(FieldOf(v), FieldOf(w)))))
  }

  predicate Ascending(log: seq<Write>) {
    forall i, j :: 0 <= i < j < |log| ==> Precedes(log[i], log[j])
  }

  lemma AscendingConcat(a: seq<Write>, b: seq<Write>)
    requires Ascending(a) && Ascending(b) && forall v, w :: v in a && w in b ==> Precedes(v, w)
    ensures Ascending(a + b)
  {
    hide Precedes;
    forall i, j | 0 <= i < j < |a + b|
      ensures Precedes((a + b)[i], (a + b)[j])
    {
      assert i < |a| ==> (a + b)[i] == a[i] && a[i] in a;
      assert i >= |a| ==> (a + b)[i] == b[i - |a|];
      assert j < |a| ==> (a + b)[j] == a[j];
      assert j >= |a| ==> (a + b)[j] == b[j - |a|] && b[j - |a|] in b;
    }
  }

  lemma ShortAscends(w: Write)
    ensures Ascending([]) && Ascending([w])
  {
  }

  /** All are changes of one entry in the same turn, to the given fields. */
  predicate Among(log: seq<Write>, id: string, turn: nat, fields: seq<string>) {
    forall w :: w in log ==> !w.DropEntry? && w.id == id && Turn(w) == turn && FieldOf(w) in fields
  }

  lemma FieldAscends(log: seq<Write>, id: string, turn: nat, front: seq<string>, w: Write)
    requires Ascending(log) && Among(log, id, turn, front)
    requires !w.DropEntry? && w.id == id && Turn(w) == turn && forall f :: f in front ==> Less(f, FieldOf(w))
    ensures Ascending(log + [w]) && Among(log + [w], id, turn, front + [FieldOf(w)])
  {
    ShortAscends(w);
    hide Less, Ascending, Turn, FieldOf;
    AscendingConcat(log, [w]);
  }

  lemma LastIsGreatest(fields: seq<string>)
    requires StrictlySorted(fields) && fields != []
    ensures var front, last := fields[..|fields| - 1], fields[|fields| - 1];
            StrictlySorted(front) && fields == front + [last] && forall f :: f in front ==> Less(f, last)
  {
    hide Less;
  }

  lemma MoreAmong(log: seq<Write>, id: string, turn: nat, front: seq<string>, f: string)
    requires Among(log, id, turn, front)
    ensures Among(log, id, turn, front + [f])
  {
    hide Turn, FieldOf;
  }

  lemma {:induction false} SetsAscend(id: string, cur: Entry, final: Entry, fields: seq<string>)
    requires StrictlySorted(fields)
    ensures Ascending(Sets(id, cur, final, fields)) && Among(Sets(id, cur, final, fields), id, 1, fields)
  {
    hide Differs, Get, Less, Ascending, Among, StrictlySorted;
    if fields == [] {
      ShortAscends(NewEntry(id));
      NoneAmong(id, 1, fields);
    } else {
      var front, f := fields[..|fields| - 1], fields[|fields| - 1];
      LastIsGreatest(fields);
      SetsAscend(id, cur, final, front);
      AppendNil(Sets(id, cur, final, front));
      MoreAmong(Sets(id, cur, final, front), id, 1, front, f);
      FieldAscends(Sets(id, cur, final, front), id, 1, front, SetField(id, f, Get(final, f)));
    }
  }

  lemma {:induction false} DeletesAscend(id: string, final: Entry, fields: seq<string>)
    requires StrictlySorted(fields)
    ensures Ascending(Deletes(id, final, fields)) && Among(Deletes(id, final, fields), id, 2, fields)
  {
    hide Stale, Less, Ascending, Among, StrictlySorted;
    if fields == [] {
      ShortAscends(NewEntry(id));
      NoneAmong(id, 2, fields);
    } else {
      var front, f := fields[..|fields| - 1], fields[|fields| - 1];
      LastIsGreatest(fields);
      DeletesAscend(id, final, front);
      AppendNil(Deletes(id, final, front));
      MoreAmong(Deletes(id, final, front), id, 2, front, f);
      FieldAscends(Deletes(id, final, front), id, 2, front, DeleteField(id, f));
    }
  }

  lemma NoneAmong(id: string, turn: nat, fields: seq<string>)
    ensures Among([], id, turn, fields)
  {
  }

  /** All are rewrites, of entries with these ids. */
  predicate Rewrites(log: seq<Write>, ids: seq<string>) {
    forall w :: w in log ==> !w.DropEntry? && w.id in ids
  }

  lemma AmongPrecede(a: seq<Write>, b: seq<Write>, id: string, turn: nat, later: nat, fields: seq<string>, others: seq<string>)
    requires Among(a, id, turn, fields) && Among(b, id, later, others) && turn < later
    ensures forall v, w :: v in a && w in b ==> Precedes(v, w)
  {
    hide Turn, FieldOf, Less;
  }

  lemma EntryAscends(id: string, s: Option<Stored>, final: Entry)
    ensures Ascending(EntryWrites(id, s, final)) && Rewrites(EntryWrites(id, s, final), [id])
  {
    var start: seq<Write> := if IsEntry(s) then [] else [NewEntry(id)];
    assert Among(start, id, 0, [""]) && Ascending(start) by {
      ShortAscends(NewEntry(id));
      hide IsEntry, Ascending;
    }
    hide *;
    var fields, stale := SortedKeys(final.Keys), SortedKeys(WriteTarget(s).Keys);
    EntryParts(id, s, final, fields, stale);
    var sets, deletes := Sets(id, WriteTarget(s), final, fields), Deletes(id, final, stale);
    SetsAscend(id, WriteTarget(s), final, fields);
    DeletesAscend(id, final, stale);
    AmongPrecede(start, sets, id, 0, 1, [""], fields);
    AmongPrecede(start, deletes, id, 0, 2, [""], stale);
    AmongPrecede(sets, deletes, id, 1, 2, fields, stale);
    AscendingConcat(start, sets);
    AscendingConcat(start + sets, deletes);
    AllRewrites(start, id, 0, [""]);
    AllRewrites(sets, id, 1, fields);
    AllRewrites(deletes, id, 2, stale);
    RewritesConcat(start, sets, [id]);
    RewritesConcat(start + sets, deletes, [id]);
  }

  lemma AllRewrites(log: seq<Write>, id: string, turn: nat, fields: seq<string>)
    requires Among(log, id, turn, fields)
    ensures Rewrites(log, [id])
  {
    hide Turn, FieldOf;
  }

  lemma RewritesConcat(a: seq<Write>, b: seq<Write>, ids: seq<string>)
    requires Rewrites(a, ids) && Rewrites(b, ids)
    ensures Rewrites(a + b, ids)
  {
  }

  lemma {:induction false} RewritesAscend(b: Board, plan: Plan, ids: seq<string>)
    requires StrictlySorted(ids) && Planned(b.elements, plan.writes, ids)
    ensures forall id :: id in ids ==> id in plan.writes && id in b.elements
    ensures Ascending(AllWrites(b, plan, ids)) && Rewrites(AllWrites(b, plan, ids), ids)
  {
    hide EntryWrites, Less, Ascending, StrictlySorted;
    if ids == [] {
      ShortAscends(NewEntry(""));
    } else {
      var front, id := ids[..|ids| - 1], ids[|ids| - 1];
      LastIsGreatest(ids);
      assert id in ids && forall x :: x in front ==> x in ids;
      RewritesAscend(b, plan, front);
      EntryAscends(id, Some(b.elements[id]), plan.writes[id]);
      AscendingConcat(AllWrites(b, plan, front), EntryWrites(id, Some(b.elements[id]), plan.writes[id]));
    }
  }

  lemma {:induction false} DropsAscend(ids: seq<string>)
    requires StrictlySorted(ids)
    ensures Ascending(Drops(ids)) && forall w :: w in Drops(ids) ==> w.DropEntry? && w.id in ids
  {
    hide Less, Ascending, StrictlySorted;
    if ids == [] {
      ShortAscends(NewEntry(""));
    } else {
      var front, id := ids[..|ids| - 1], ids[|ids| - 1];
      LastIsGreatest(ids);
      DropsAscend(front);
      ShortAscends(DropEntry(id));
      AscendingConcat(Drops(front), [DropEntry(id)]);
    }
  }

  /** The changes of a pass come in ascending order, so they are the same structs on every node. */
  lemma LogAscends(b: Board, scope: Option<set<string>>, policy: FilePolicy, lib: IndexLibrary)
    ensures PlanFor(b, scope, policy, lib).writes.Keys <= b.elements.Keys
    ensures Ascending(WritesOf(b, PlanFor(b, scope, policy, lib)))
  {
    WritesAreStored(b, scope, policy, lib);
    var plan := PlanFor(b, scope, policy, lib);
    var ids := SortedKeys(plan.writes.Keys);
    assert forall id :: id in ids <==> id in Elements(ids);
    assert StrictlySorted(plan.drops);
    hide SortedKeys, PlanFor, Elements, Less, Ascending, StrictlySorted, AllWrites, Drops;
    RewritesAscend(b, plan, ids);
    DropsAscend(plan.drops);
    AscendingConcat(AllWrites(b, plan, ids), Drops(plan.drops));
  }
}
