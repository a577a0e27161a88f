/**
 * The two-level shared maps of a board: entries by id, each a map of fields. Entries are
 * written field by field, in place, and every change is recorded in the order it is made.
 */
module EntryMaps {
  import opened Prelude
  import opened Strings
  import opened JsValues
  import opened WhiteboardSchema
  import opened SeqFacts

  /** An entry is stored as a field map; a corrupt one as a plain object or something else. */
  datatype Stored =
    | YMap(fields: Entry)
    | PlainObject(props: Entry)
    | Junk

  function ReadEntry(s: Stored): Entry {
    match s
    case YMap(fields) => fields
    case PlainObject(props) => props
    case Junk => map[]
  }

  function Slot(els: map<string, Stored>, id: string): Option<Stored> {
    if id in els then Some(els[id]) else None
  }

  /** Writes go into the stored field map; a missing or corrupt entry is replaced by a fresh map. */
  function WriteTarget(s: Option<Stored>): Entry {
    if s.Some? && s.value.YMap? then s.value.fields else map[]
  }

  // ----- plain objects -----

  /** Names that every plain object answers to without having them as fields. */
  const INHERITED: set<string> :=
    {"constructor", "hasOwnProperty", "isPrototypeOf", "propertyIsEnumerable", "toLocaleString", "toString", "valueOf",
     "__defineGetter__", "__defineSetter__", "__lookupGetter__", "__lookupSetter__", "__proto__"}

  /**
   * Whether a field is set. Under an inherited name that the entry has no field for, the code
   * compares with what is inherited: a function, which equals nothing stored, or for `__proto__`
   * an object that prints as an empty one.
   */
  predicate Differs(cur: Entry, final: Entry, f: string) {
    if f in cur || f !in INHERITED then !FieldEquals(Get(cur, f), Get(final, f))
    else f != "__proto__" || !Get(final, f).Obj? || JsonForm(Get(final, f)) != Obj([])
  }

  /** Whether the code finds a field stale: names that are inherited never are. */
  predicate Stale(final: Entry, f: string) {
    f !in final && f !in INHERITED
  }

  /** Writing one entry over another: stale fields go, and those that differ are set. */
  function Written(cur: Entry, final: Entry): Entry {
    map field | field in cur.Keys + final.Keys && !Stale(final, field) && (field in cur || Differs(cur, final, field))
      :: if field in final && Differs(cur, final, field) then final[field] else cur[field]
  }

  lemma InheritedNames()
    ensures INHERITED !! {"id", "type", "version", "versionNonce", "isDeleted", "index", "fileId"}
    ensures "toString" in INHERITED && "__proto__" in INHERITED
  {
    assert |"id"| == 2 && |"type"| == 4 && |"version"| == 7 && |"versionNonce"| == 12 && |"isDeleted"| == 9 && |"index"| == 5 && |"fileId"| == 6;
    assert |"constructor"| == 11 && |"hasOwnProperty"| == 14 && |"isPrototypeOf"| == 13 && |"propertyIsEnumerable"| == 20 && |"toLocaleString"| == 14;
    assert |"toString"| == 8 && |"valueOf"| == 7 && "valueOf"[1] == 'a' && "version"[1] == 'e' && "isDeleted"[0] == 'i' && "__proto__"[0] == '_';
    assert |"__defineGetter__"| == 16 && |"__defineSetter__"| == 16 && |"__lookupGetter__"| == 16 && |"__lookupSetter__"| == 16 && |"__proto__"| == 9;
  }

  /** One change to the shared document, in the order the structs are created. */
  datatype Write =
    | NewEntry(id: string)
    | SetField(id: string, field: string, value: Val)
    | DeleteField(id: string, field: string)
    | DropEntry(id: string)

  function Sets(id: string, cur: Entry, final: Entry, fields: seq<string>): seq<Write> {
    if fields == [] then []
    else
      var f := fields[|fields| - 1];
      Sets(id, cur, final, fields[..|fields| - 1])
      + (if Differs(cur, final, f) then [SetField(id, f, Get(final, f))] else [])
  }

  function Deletes(id: string, final: Entry, fields: seq<string>): seq<Write> {
    if fields == [] then []
    else
      var f := fields[|fields| - 1];
      Deletes(id, final, fields[..|fields| - 1]) + (if Stale(final, f) then [DeleteField(id, f)] else [])
  }

  predicate IsEntry(s: Option<Stored>) {
    s.Some? && s.value.YMap?
  }

  /** Writing one entry: fields in sorted order, then stale fields in sorted order. */
  ghost function EntryWrites(id: string, s: Option<Stored>, final: Entry): seq<Write> {
    (if IsEntry(s) then [] else [NewEntry(id)])
    + Sets(id, WriteTarget(s), final, SortedKeys(final.Keys))
    + Deletes(id, final, SortedKeys(WriteTarget(s).Keys))
  }

  function SetAll(cur: Entry, final: Entry, fields: seq<string>): Entry {
    if fields == [] then cur
    else
      var e, f := SetAll(cur, final, fields[..|fields| - 1]), fields[|fields| - 1];
      if Differs(cur, final, f) then e[f := Get(final, f)] else e
  }

  function DeleteAll(e: Entry, final: Entry, fields: seq<string>): Entry {
    if fields == [] then e
    else
      var d, f := DeleteAll(e, final, fields[..|fields| - 1]), fields[|fields| - 1];
      if Stale(final, f) then d - {f} else d
  }

  lemma {:induction false} SetAllAt(cur: Entry, final: Entry, fields: seq<string>, f: string)
    ensures f in SetAll(cur, final, fields) <==> f in cur || (f in fields && Differs(cur, final, f))
    ensures f in SetAll(cur, final, fields) ==>
              Get(SetAll(cur, final, fields), f) == if f in fields && Differs(cur, final, f) then Get(final, f) else Get(cur, f)
  {
    hide Differs;
    if fields != [] {
      SetAllAt(cur, final, fields[..|fields| - 1], f);
      assert f in fields <==> f in fields[..|fields| - 1] || f == fields[|fields| - 1];
    }
  }

  lemma {:induction false} DeleteAllAt(e: Entry, final: Entry, fields: seq<string>, f: string)
    ensures f in DeleteAll(e, final, fields) <==> f in e && (!Stale(final, f) || f !in fields)
    ensures f in DeleteAll(e, final, fields) ==> Get(DeleteAll(e, final, fields), f) == Get(e, f)
  {
    hide Stale;
    if fields != [] {
      DeleteAllAt(e, final, fields[..|fields| - 1], f);
      assert f in fields <==> f in fields[..|fields| - 1] || f == fields[|fields| - 1];
    }
  }

  lemma WrittenAt(cur: Entry, final: Entry, f: string)
    ensures f in Written(cur, final) <==> f in cur.Keys + final.Keys && !Stale(final, f) && (f in cur || Differs(cur, final, f))
    ensures f in Written(cur, final) ==>
              Get(Written(cur, final), f) == if f in final && Differs(cur, final, f) then Get(final, f) else Get(cur, f)
  {
    hide Differs, INHERITED;
  }

  /** The two field loops leave exactly the written entry. */
  lemma FieldLoops(cur: Entry, final: Entry, fields: seq<string>, stale: seq<string>)
    requires forall f :: f in fields <==> f in final
    requires forall f :: f in stale <==> f in cur
    ensures DeleteAll(SetAll(cur, final, fields), final, stale) == Written(cur, final)
  {
    var e := SetAll(cur, final, fields);
    forall f
      ensures f in DeleteAll(e, final, stale) <==> f in Written(cur, final)
      ensures Get(DeleteAll(e, final, stale), f) == Get(Written(cur, final), f)
    {
      hide SetAll, DeleteAll, Written, Differs, INHERITED;
      SetAllAt(cur, final, fields, f);
      DeleteAllAt(e, final, stale, f);
      WrittenAt(cur, final, f);
    }
    hide SetAll, DeleteAll, Written;
    SameEntries(DeleteAll(e, final, stale), Written(cur, final));
  }

  lemma SameEntries(a: Entry, b: Entry)
    requires forall f :: f in a <==> f in b
    requires forall f :: Get(a, f) == Get(b, f)
    ensures a == b
  {
    assert forall f :: f in a ==> a[f] == Get(a, f) == b[f];
  }

  lemma SetStep(id: string, cur: Entry, final: Entry, fields: seq<string>, i: nat)
    requires i < |fields|
    ensures SetAll(cur, final, fields[..i + 1])
         == (if Differs(cur, final, fields[i]) then SetAll(cur, final, fields[..i])[fields[i] := Get(final, fields[i])] else SetAll(cur, final, fields[..i]))
    ensures Sets(id, cur, final, fields[..i + 1])
         == Sets(id, cur, final, fields[..i]) + (if Differs(cur, final, fields[i]) then [SetField(id, fields[i], Get(final, fields[i]))] else [])
  {
    hide Differs, Get;
    assert fields[..i + 1][..i] == fields[..i];
  }

  lemma DeleteStep(id: string, e: Entry, final: Entry, stale: seq<string>, i: nat)
    requires i < |stale|
    ensures DeleteAll(e, final, stale[..i + 1])
         == (if Stale(final, stale[i]) then DeleteAll(e, final, stale[..i]) - {stale[i]} else DeleteAll(e, final, stale[..i]))
    ensures Deletes(id, final, stale[..i + 1])
         == Deletes(id, final, stale[..i]) + (if Stale(final, stale[i]) then [DeleteField(id, stale[i])] else [])
  {
    hide Stale;
    assert stale[..i + 1][..i] == stale[..i];
  }

  lemma NoFields(id: string, e: Entry, final: Entry)
    ensures SetAll(e, final, []) == e && Sets(id, e, final, []) == []
    ensures DeleteAll(e, final, []) == e && Deletes(id, final, []) == []
  {
  }

  lemma SlotOf(els: map<string, Stored>, id: string)
    ensures IsEntry(Slot(els, id)) <==> id in els && els[id].YMap?
    ensures WriteTarget(Slot(els, id)) == if id in els && els[id].YMap? then els[id].fields else map[]
  {
  }

  lemma WritesAre(id: string, s: Option<Stored>, final: Entry, fields: seq<string>, stale: seq<string>, before: seq<Write>)
    requires fields == SortedKeys(final.Keys) && stale == SortedKeys(WriteTarget(s).Keys)
    ensures var start := if IsEntry(s) then [] else [NewEntry(id)];
            before + EntryWrites(id, s, final) == (before + start) + Sets(id, WriteTarget(s), final, fields) + Deletes(id, final, stale)
    ensures before + [] == before
  {
    hide Sets, Deletes, SortedKeys, WriteTarget, IsEntry;
    var start: seq<Write> := if IsEntry(s) then [] else [NewEntry(id)];
    Assoc(before, start, Sets(id, WriteTarget(s), final, fields));
    Assoc(before, start + Sets(id, WriteTarget(s), final, fields), Deletes(id, final, stale));
  }

  method SortedFields<T>(m: map<string, T>) returns (keys: seq<string>)
    ensures keys == SortedKeys(m.Keys) && Distinct(keys)
    ensures forall k :: k in keys <==> k in m
  {
    hide Sort, SortedKeys;
    var any := Enumerate(m.Keys);
    SortIsCanonical(any);
    keys := Sort(any);
    SortedIsDistinct(keys);
    assert forall k :: k in keys <==> k in Elements(keys);
  }

  /** A shared map of entries, and the changes made to it so far. */
  class EntryMap {
    var entries: map<string, Stored>
    var log: seq<Write>

    constructor (initial: map<string, Stored>)
      ensures entries == initial && log == []
    {
      entries, log := initial, [];
    }

    /** Gets or creates the entry of `id` and makes it equal `final`, field by field. */
    method WriteEntry(id: string, final: Entry)
      modifies this
      ensures entries == old(entries)[id := YMap(Written(WriteTarget(Slot(old(entries), id)), final))]
      ensures log == old(log) + EntryWrites(id, Slot(old(entries), id), final)
    {
      hide *;
      ghost var s := Slot(entries, id);
      SlotOf(entries, id);
      ghost var start := if IsEntry(s) then [] else [NewEntry(id)];
      if id !in entries || !entries[id].YMap? {
        entries := entries[id := YMap(map[])];
        log := log + [NewEntry(id)];
      }
      var cur := entries[id].fields;
      var fields := SortedFields(final);
      SetFields(id, cur, final, fields);
      var stale := SortedFields(cur);
      ClearFields(id, SetAll(cur, final, fields), final, stale);
      FieldLoops(cur, final, fields, stale);
      WritesAre(id, s, final, fields, stale, old(log));
    }

    method SetFields(id: string, cur: Entry, final: Entry, fields: seq<string>)
      requires id in entries && entries[id] == YMap(cur)
      modifies this
      ensures entries == old(entries)[id := YMap(SetAll(cur, final, fields))]
      ensures log == old(log) + Sets(id, cur, final, fields)
    {
      hide Differs, Get, SetAll, Sets;
      NoFields(id, cur, final);
      assert fields[..0] == [];
      for i := 0 to |fields|
        invariant entries == old(entries)[id := YMap(SetAll(cur, final, fields[..i]))]
        invariant log == old(log) + Sets(id, cur, final, fields[..i])
      {
        var f := fields[i];
        SetStep(id, cur, final, fields, i);
        Assoc(old(log), Sets(id, cur, final, fields[..i]), [SetField(id, f, Get(final, f))]);
        AppendNil(Sets(id, cur, final, fields[..i]));
        if Differs(cur, final, f) {
          entries := entries[id := YMap(entries[id].fields[f := Get(final, f)])];
          log := log + [SetField(id, f, Get(final, f))];
        }
      }
      WholePrefix(fields);
    }

    method ClearFields(id: string, e: Entry, final: Entry, stale: seq<string>)
      requires id in entries && entries[id] == YMap(e)
      modifies this
      ensures entries == old(entries)[id := YMap(DeleteAll(e, final, stale))]
      ensures log == old(log) + Deletes(id, final, stale)
    {
      hide DeleteAll, Deletes, Stale;
      NoFields(id, e, final);
      assert stale[..0] == [];
      for i := 0 to |stale|
        invariant entries == old(entries)[id := YMap(DeleteAll(e, final, stale[..i]))]
        invariant log == old(log) + Deletes(id, final, stale[..i])
      {
        var f := stale[i];
        DeleteStep(id, e, final, stale, i);
        Assoc(old(log), Deletes(id, final, stale[..i]), [DeleteField(id, f)]);
        AppendNil(Deletes(id, final, stale[..i]));
        if Stale(final, f) {
          entries := entries[id := YMap(entries[id].fields - {f})];
          log := log + [DeleteField(id, f)];
        }
      }
      WholePrefix(stale);
    }

    method SetOne(id: string, field: string, value: Val)
      requires id in entries && entries[id].YMap?
      modifies this
      ensures entries == old(entries)[id := YMap(old(entries)[id].fields[field := value])]
      ensures log == old(log) + [SetField(id, field, value)]
    {
      entries := entries[id := YMap(entries[id].fields[field := value])];
      log := log + [SetField(id, field, value)];
    }

    method Delete(id: string)
      modifies this
      ensures entries == old(entries) - {id}
      ensures log == old(log) + [DropEntry(id)]
    {
      entries := entries - {id};
      log := log + [DropEntry(id)];
    }

    /** Merges an update that holds all of this map and what a copy of it then did. */
    method Merge(copy: EntryMap)
      modifies this
      ensures entries == copy.entries && log == old(log) + old(copy.log)
    {
      entries, log := copy.entries, log + copy.log;
    }
  }
}
