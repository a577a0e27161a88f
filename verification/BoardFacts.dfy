/**
 * What a board batch does, field by field: which elements and file references are accepted, when
 * an upsert gets through, what a tombstone changes, and which file references are there after.
 */
module BoardFacts {
  import opened Prelude
  import opened Strings
  import opened JsValues
  import opened WhiteboardSchema
  import opened EntryMaps
  import opened BoardCas
  import opened BoardEdit
  import opened BoardLaws
  import WhiteboardFields

  // ----- what is accepted -----

  lemma ReservedAre(key: string)
    ensures key in RESERVED_KEYS <==> key == "__proto__" || key == "constructor" || key == "prototype"
  {
  }

  lemma TypesAre(kind: string)
    ensures kind in ELEMENT_TYPES <==>
            || kind == "rectangle" || kind == "ellipse" || kind == "diamond" || kind == "arrow" || kind == "line"
            || kind == "freedraw" || kind == "text" || kind == "image" || kind == "frame" || kind == "embeddable"
  {
  }

  lemma InheritedAre(f: string)
    ensures f in INHERITED <==>
            || f == "constructor" || f == "hasOwnProperty" || f == "isPrototypeOf" || f == "propertyIsEnumerable"
            || f == "toLocaleString" || f == "toString" || f == "valueOf" || f == "__proto__"
            || f == "__defineGetter__" || f == "__defineSetter__" || f == "__lookupGetter__" || f == "__lookupSetter__"
  {
  }

  predicate Text(v: Val) {
    v.Str? && |v.s| > 0
  }

  predicate Unreserved(e: Entry) {
    "__proto__" !in e && "constructor" !in e && "prototype" !in e
  }

  lemma UnreservedIs(e: Entry)
    ensures e.Keys !! RESERVED_KEYS <==> Unreserved(e)
  {
    ReservedAre("__proto__");
    ReservedAre("constructor");
    ReservedAre("prototype");
    forall key | key in RESERVED_KEYS
      ensures key == "__proto__" || key == "constructor" || key == "prototype"
    {
      ReservedAre(key);
    }
    hide RESERVED_KEYS;
  }

  /** An element is rendered exactly with an id, a type of the schema and no reserved field. */
  lemma RenderableIff(e: Entry)
    ensures Renderable(e) <==>
            && Text(Get(e, "id")) && Unreserved(e)
            && Get(e, "type").Str? && Get(e, "type").s in ELEMENT_TYPES
  {
    UnreservedIs(e);
    hide RESERVED_KEYS, ELEMENT_TYPES;
  }

  /** A file reference is usable exactly with an attachment id and no reserved field. */
  lemma FileRefIff(v: Val)
    ensures NormalizeFileRef(v).Some? <==> v.Obj? && Text(Get(FieldsOf(v.fields), "attachId")) && Unreserved(FieldsOf(v.fields))
  {
    if v.Obj? {
      UnreservedIs(FieldsOf(v.fields));
    }
    hide RESERVED_KEYS, FieldsOf;
  }

  /** Of a usable reference a blank type or status and a creation time that is no finite number go; the rest stays. */
  lemma FileRefFields(v: Val, f: string)
    requires NormalizeFileRef(v).Some?
    ensures var src, ref := FieldsOf(v.fields), NormalizeFileRef(v).value;
            && (f in ref <==> f in src && (f == "mimeType" || f == "status" ==> Text(src[f])) && (f == "createdAt" ==> src[f].Num?))
            && (f in ref ==> ref[f] == src[f])
  {
    FileFieldNames();
    hide RESERVED_KEYS, FieldsOf;
  }

  lemma FileFieldNames()
    ensures "mimeType" != "status" && "mimeType" != "createdAt" && "status" != "createdAt"
  {
    assert |"mimeType"| == 8 && |"status"| == 6 && |"createdAt"| == 9;
  }

  /** An element of a batch is accepted exactly if it can be rendered, and is normalized without pruning. */
  lemma ElementIff(v: Val, valid: ValidIndex)
    ensures NormalizeRaw(v, valid).Some? <==> v.Obj? && Renderable(FieldsOf(v.fields))
    ensures NormalizeRaw(v, valid).Some? ==> NormalizeRaw(v, valid) == Normalize(FieldsOf(v.fields), None, valid)
  {
    hide Normalize, Renderable, FieldsOf;
  }

  /** The parts of a batch that may be left out are lists of elements and ids and an object of file references. */
  lemma PartsOk(v: Val, valid: ValidIndex)
    ensures ElementsOk(v, valid) <==> v.Undefined? || (v.Arr? && forall x :: x in v.items ==> NormalizeRaw(x, valid).Some?)
    ensures IdsOk(v, false) <==> v.Undefined? || (v.Arr? && forall x :: x in v.items ==> Text(x))
    ensures IdsOk(v, true) <==>
            v.Undefined? || (v.Arr? && forall x :: x in v.items ==> Text(x) && Unreserving(x.s))
    ensures FilesOk(v) <==> v.Undefined? || (v.Obj? && forall f :: f in v.fields ==> FileNameOk(f.name) && NormalizeFileRef(f.value).Some?)
  {
    forall x, safe
      ensures IdOk(x, safe) <==> Text(x) && (safe ==> Unreserving(x.s))
    {
      if Text(x) {
        ReservedAre(x.s);
      }
      hide RESERVED_KEYS;
    }
    forall f: Field
      ensures FileOk(f) <==> FileNameOk(f.name) && NormalizeFileRef(f.value).Some?
    {
      ReservedAre(f.name);
      hide RESERVED_KEYS, FileRefUsable;
    }
    hide NormalizeRaw, NormalizeFileRef, IdOk, FileOk, FileNameOk, Text, Unreserving;
    if v.Arr? {
      assert forall x :: x in v.items ==> exists i :: 0 <= i < |v.items| && v.items[i] == x;
      assert forall i :: 0 <= i < |v.items| ==> v.items[i] in v.items;
    }
    if v.Obj? {
      assert forall f :: f in v.fields ==> exists i :: 0 <= i < |v.fields| && v.fields[i] == f;
      assert forall i :: 0 <= i < |v.fields| ==> v.fields[i] in v.fields;
    }
  }

  predicate Unreserving(name: string) {
    name != "__proto__" && name != "constructor" && name != "prototype"
  }

  predicate FileNameOk(name: string) {
    name != "" && Unreserving(name)
  }

  /** The fields of an object by name; of two with one name the later counts. */
  lemma {:induction false} FieldsAre(fields: seq<Field>, last: Field, name: string)
    ensures FieldsOf([]) == map[]
    ensures Get(FieldsOf(fields + [last]), name) == if name == last.name then last.value else Get(FieldsOf(fields), name)
    ensures name in FieldsOf(fields + [last]) <==> name == last.name || name in FieldsOf(fields)
  {
    assert (fields + [last])[..|fields + [last]| - 1] == fields;
  }

  // ----- when an upsert gets through -----

  /** A live element gives way to a greater version, or to the same version with a smaller nonce; a missing one always. */
  lemma SupersedesIff(e: Entry, st: Stamp)
    ensures CasOf(None).None? && CasOf(Some(Junk)).None? && CasOf(Some(PlainObject(e))).None? && Supersedes(None, st)
    ensures var version, nonce := WhiteboardFields.VersionOf(e), AtLeastOne(Get(e, "versionNonce"));
            Supersedes(CasOf(Some(YMap(e))), st) <==> st.version > version || (st.version == version && st.nonce < nonce)
  {
    WhiteboardFields.VersionIs(e);
  }

  /** How arbitration reads a stored nonce. */
  function AtLeastOne(v: Val): int {
    if v.Num? && v.n == v.n.Floor as real && v.n >= 1.0 then v.n.Floor else 1
  }

  /** An upsert that gets through leaves its fields, one that does not leaves all as it was. */
  lemma UpsertLands(els: map<string, Stored>, u: Upsert)
    requires WellFormed(u)
    ensures var after := Upserts(els, [u]);
            (if Supersedes(CasOf(Slot(els, u.id)), u.stamp)
             then after.Keys == els.Keys + {u.id} && Holds(Slot(after, u.id), u) && forall id :: id in els && id != u.id ==> after[id] == els[id]
             else after == els)
  {
    PutHolds(Slot(els, u.id), u);
    assert [u][..0] == [];
    hide Put, Holds, WellFormed, CasOf, Supersedes;
  }

  // ----- when a field counts as unchanged -----

  /** Prints as null inside an array. */
  predicate Void(v: Val) {
    v.Undefined? || v.Null? || v.NotFinite?
  }

  /** The two print as the same JSON: a number that is not finite and a hole of an array as null, an undefined field not at all. */
  predicate SameText(a: Val, b: Val)
    decreases a, 1
  {
    match a
    case Null => b.Null? || b.NotFinite?
    case NotFinite(_) => b.Null? || b.NotFinite?
    case Arr(items) => b.Arr? && SameItems(items, b.items)
    case Obj(fields) => b.Obj? && SameFields(fields, b.fields)
    case _ => a == b
  }

  predicate SameItems(xs: seq<Val>, ys: seq<Val>)
    decreases xs, 0
  {
    if xs == [] || ys == [] then xs == ys
    else (if Void(xs[0]) then Void(ys[0]) else !Void(ys[0]) && SameText(xs[0], ys[0])) && SameItems(xs[1..], ys[1..])
  }

  predicate SameFields(xs: seq<Field>, ys: seq<Field>)
    decreases xs, 0, |ys|
  {
    if xs != [] && xs[0].value.Undefined? then SameFields(xs[1..], ys)
    else if ys != [] && ys[0].value.Undefined? then SameFields(xs, ys[1..])
    else if xs == [] || ys == [] then xs == ys
    else xs[0].name == ys[0].name && SameText(xs[0].value, ys[0].value) && SameFields(xs[1..], ys[1..])
  }

  lemma {:induction false} SameForm(a: Val, b: Val)
    ensures JsonForm(a) == JsonForm(b) <==> SameText(a, b)
    decreases a, 1
  {
    match a {
      case Arr(items) =>
        if b.Arr? {
          SameItemForms(items, b.items);
        }
      case Obj(fields) =>
        if b.Obj? {
          SameFieldForms(fields, b.fields);
        }
      case _ =>
    }
  }

  lemma {:induction false} SameItemForms(xs: seq<Val>, ys: seq<Val>)
    ensures JsonItems(xs) == JsonItems(ys) <==> SameItems(xs, ys)
    decreases xs, 0
  {
    if xs != [] && ys != [] {
      SameForm(xs[0], ys[0]);
      SameItemForms(xs[1..], ys[1..]);
      ItemsCons(xs);
      ItemsCons(ys);
    }
  }

  lemma ItemsCons(xs: seq<Val>)
    requires xs != []
    ensures JsonItems(xs)[0] == if xs[0].Undefined? then Null else JsonForm(xs[0])
    ensures JsonItems(xs)[1..] == JsonItems(xs[1..]) && JsonItems(xs) == [JsonItems(xs)[0]] + JsonItems(xs)[1..]
    ensures JsonItems(xs)[0].Null? <==> Void(xs[0])
  {
  }

  lemma {:induction false} SameFieldForms(xs: seq<Field>, ys: seq<Field>)
    ensures JsonFields(xs) == JsonFields(ys) <==> SameFields(xs, ys)
    decreases xs, 0, |ys|
  {
    FieldsCons(xs);
    FieldsCons(ys);
    if xs != [] && xs[0].value.Undefined? {
      SameFieldForms(xs[1..], ys);
    } else if ys != [] && ys[0].value.Undefined? {
      SameFieldForms(xs, ys[1..]);
    } else if xs != [] && ys != [] {
      SameForm(xs[0].value, ys[0].value);
      SameFieldForms(xs[1..], ys[1..]);
    }
  }

  lemma FieldsCons(xs: seq<Field>)
    ensures xs == [] ==> JsonFields(xs) == []
    ensures xs != [] && xs[0].value.Undefined? ==> JsonFields(xs) == JsonFields(xs[1..])
    ensures xs != [] && !xs[0].value.Undefined? ==>
              && JsonFields(xs) != [] && JsonFields(xs)[0] == Field(xs[0].name, JsonForm(xs[0].value))
              && JsonFields(xs)[1..] == JsonFields(xs[1..]) && JsonFields(xs) == [JsonFields(xs)[0]] + JsonFields(xs)[1..]
  {
  }

  /** A field counts as unchanged exactly for the same value, or for an object or array that prints as the same JSON. */
  lemma FieldEqualsIff(a: Val, b: Val)
    ensures FieldEquals(a, b) <==> a == b || ((a.Arr? || a.Obj?) && (b.Arr? || b.Obj?) && SameText(a, b))
  {
    SameForm(a, b);
    hide JsonForm, SameText;
  }

  // ----- tombstones -----

  /** Deleting a live element raises its version by one and gives it the nonce of that version; its other fields stay. */
  lemma TombstoneIs(e: Entry, id: string)
    requires Get(e, "isDeleted") != Bool(true)
    ensures var next := WhiteboardFields.VersionOf(e) + 1;
            DeleteSlot(Some(YMap(e)), id) ==
            Some(YMap(e["version" := Num(next as real)]["versionNonce" := Num(DeterministicNonce(id + ":" + Decimal(next)) as real)]["isDeleted" := Bool(true)]))
  {
    WhiteboardFields.VersionIs(e);
    hide DeterministicNonce, Decimal, CoerceVersion;
  }

  /** Every id of the batch is deleted once, if a live element is there; nothing else changes. */
  lemma DeletesAre(els: map<string, Stored>, ids: seq<string>, id: string)
    ensures id in DeleteMany(els, ids) <==> id in els
    ensures id in els && (id !in ids || !els[id].YMap? || Get(els[id].fields, "isDeleted") == Bool(true)) ==> DeleteMany(els, ids)[id] == els[id]
    ensures id in els && id in ids && els[id].YMap? && Get(els[id].fields, "isDeleted") != Bool(true) ==>
              Some(DeleteMany(els, ids)[id]) == DeleteSlot(Some(els[id]), id)
  {
    SlotOfDeletes(els, ids, id);
    DeleteTwice(Slot(els, id), id);
    hide DeleteMany, CoerceVersion, NonceFor;
  }

  // ----- file references -----

  lemma {:induction false} PutElsewhere(files: map<string, Stored>, refs: seq<(string, Entry)>, id: string)
    requires forall r :: r in refs ==> r.0 != id
    ensures Slot(PutFiles(files, refs), id) == Slot(files, id)
  {
    hide Written;
    if refs != [] {
      assert refs[|refs| - 1] in refs && forall r :: r in refs[..|refs| - 1] ==> r in refs;
      PutElsewhere(files, refs[..|refs| - 1], id);
    }
  }

  /** The batch names the file reference at `k`, and no later one of that id. */
  predicate LastFor(refs: seq<(string, Entry)>, k: nat, id: string) {
    k < |refs| && refs[k].0 == id && forall j :: k < j < |refs| ==> refs[j].0 != id
  }

  /** The stored reference has the fields of the given one. Only inherited names that it lacks are exempt. */
  ghost predicate HoldsRef(s: Option<Stored>, ref: Entry) {
    IsEntry(s) && forall f :: f in ref || f !in INHERITED ==> FieldEquals(Get(s.value.fields, f), Get(ref, f))
  }

  lemma WrittenHolds(cur: Entry, ref: Entry)
    requires "__proto__" !in ref
    ensures HoldsRef(Some(YMap(Written(cur, ref))), ref)
  {
    forall f | f in ref || f !in INHERITED
      ensures FieldEquals(Get(Written(cur, ref), f), Get(ref, f))
    {
      RestoredField(cur, ref, f);
      hide Written, INHERITED, FieldEquals;
    }
    hide Written, FieldEquals, INHERITED;
  }

  lemma {:induction false} PutLast(files: map<string, Stored>, refs: seq<(string, Entry)>, k: nat, id: string)
    requires LastFor(refs, k, id) && "__proto__" !in refs[k].1
    ensures HoldsRef(Slot(PutFiles(files, refs), id), refs[k].1)
  {
    hide HoldsRef, Written;
    var front, last := refs[..|refs| - 1], refs[|refs| - 1];
    var before := PutFiles(files, front);
    if k == |refs| - 1 {
      WrittenHolds(WriteTarget(Slot(before, id)), last.1);
    } else {
      PutLast(files, front, k, id);
    }
  }

  /**
   * After a batch an upserted file reference is there with its fields, a deleted one is gone
   * unless the batch puts it back, and one that the batch does not name is as before.
   */
  lemma FilesAre(m: Maps, ops: Ops, id: string)
    ensures var after := Applied(m, ops).files;
            && (forall k: nat :: LastFor(ops.fileUpserts, k, id) && "__proto__" !in ops.fileUpserts[k].1 ==> HoldsRef(Slot(after, id), ops.fileUpserts[k].1))
            && ((forall r :: r in ops.fileUpserts ==> r.0 != id) ==>
                  Slot(after, id) == if id in ops.fileDeletes then None else Slot(m.files, id))
  {
    var kept := m.files - Elements(ops.fileDeletes);
    hide HoldsRef, PutFiles, Upserts, DeleteMany;
    forall k: nat | LastFor(ops.fileUpserts, k, id) && "__proto__" !in ops.fileUpserts[k].1
      ensures HoldsRef(Slot(PutFiles(kept, ops.fileUpserts), id), ops.fileUpserts[k].1)
    {
      PutLast(kept, ops.fileUpserts, k, id);
    }
    if forall r :: r in ops.fileUpserts ==> r.0 != id {
      PutElsewhere(kept, ops.fileUpserts, id);
    }
  }
}
