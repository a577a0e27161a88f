/**
 * The board edit batch: fail-closed validation, in-place application to the shared maps, what
 * runs of batches keep, and the reconcile that restores a board version.
 */
module BoardEdit {
  import opened Prelude
  import opened Strings
  import opened JsValues
  import opened WhiteboardSchema
  import opened EntryMaps
  import opened BoardCas
  import opened WhiteboardRepair

  datatype BoardError = BoardElementInvalid | BoardFileInvalid | BoardSnapshotInvalid

  /** A batch as it arrives, and the batch that validation makes of it. */
  datatype RawOps = RawOps(elements: Val, deletedElementIds: Val, files: Val, deletedFileIds: Val)

  datatype Ops = Ops(upserts: seq<Upsert>, deletes: seq<string>, fileUpserts: seq<(string, Entry)>, fileDeletes: seq<string>)

  // ----- validation -----

  /** The own fields of a JSON object. */
  function FieldsOf(fields: seq<Field>): Entry {
    if fields == [] then map[] else FieldsOf(fields[..|fields| - 1])[fields[|fields| - 1].name := fields[|fields| - 1].value]
  }

  function NormalizeRaw(v: Val, valid: ValidIndex): Option<Entry> {
    if v.Obj? then Normalize(FieldsOf(v.fields), None, valid) else None
  }

  predicate NonEmpty(v: Val) {
    v.Str? && v.s != ""
  }

  predicate FileRefUsable(v: Val) {
    v.Obj? && NonEmpty(Get(FieldsOf(v.fields), "attachId")) && FieldsOf(v.fields).Keys !! RESERVED_KEYS
  }

  /** A blank type or status and a creation time that is no finite number are dropped. */
  function NormalizeFileRef(v: Val): (ref: Option<Entry>)
    ensures ref.Some? <==> FileRefUsable(v)
  {
    if !FileRefUsable(v) then None
    else
      var src := FieldsOf(v.fields);
      Some(src - (if NonEmpty(Get(src, "mimeType")) then {} else {"mimeType"})
               - (if NonEmpty(Get(src, "status")) then {} else {"status"})
               - (if Get(src, "createdAt").Num? then {} else {"createdAt"}))
  }

  predicate ElementsOk(v: Val, valid: ValidIndex) {
    v == Undefined || (v.Arr? && forall i :: 0 <= i < |v.items| ==> NormalizeRaw(v.items[i], valid).Some?)
  }

  predicate IdsOk(v: Val, safe: bool) {
    v == Undefined || (v.Arr? && forall i :: 0 <= i < |v.items| ==> IdOk(v.items[i], safe))
  }

  predicate IdOk(v: Val, safe: bool) {
    NonEmpty(v) && (safe ==> v.s !in RESERVED_KEYS)
  }

  predicate FilesOk(v: Val) {
    v == Undefined || (v.Obj? && forall i :: 0 <= i < |v.fields| ==> FileOk(v.fields[i]))
  }

  predicate FileOk(f: Field) {
    f.name != "" && f.name !in RESERVED_KEYS && FileRefUsable(f.value)
  }

  function Items(v: Val): seq<Val> {
    if v.Arr? then v.items else []
  }

  function UpsertOf(e: Entry): Upsert
    requires Get(e, "id").Str? && Get(e, "version").Num? && Get(e, "versionNonce").Num?
  {
    Upsert(e["id"].s, Stamp(e["version"].n.Floor, e["versionNonce"].n.Floor), e)
  }

  /** A normalized element carries its own id and an integral stamp. */
  lemma NormalizedIsWellFormed(e: Entry, valid: ValidIndex)
    requires Renderable(e)
    ensures var n := Normalize(e, None, valid).value;
            && Get(n, "id").Str? && Get(n, "version").Num? && Get(n, "versionNonce").Num?
            && WellFormed(UpsertOf(n))
  {
    NormalizeKeeps(e, None, valid);
    NormalizedVersionsAreNumbers(e, None, valid);
    NormalizedVersions(e, valid);
    Roles();
    NormalizedGet(e, None, valid, "version");
    NormalizedGet(e, None, valid, "versionNonce");
    hide Normalize, RoleOf, NormalizedKeys, NonceFor;
  }

  ghost predicate IdsMatch(ids: seq<string>, v: Val) {
    |ids| == |Items(v)| && forall i :: 0 <= i < |ids| ==> Items(v)[i] == Str(ids[i])
  }

  ghost predicate UpsertsMatch(us: seq<Upsert>, v: Val, valid: ValidIndex) {
    && |us| == |Items(v)|
    && forall i :: 0 <= i < |us| ==> WellFormed(us[i]) && NormalizeRaw(Items(v)[i], valid) == Some(us[i].fields)
  }

  ghost predicate FilesMatch(files: seq<(string, Entry)>, v: Val) {
    if v.Obj? then |files| == |v.fields| && forall i :: 0 <= i < |files| ==> FileMatches(files[i], v.fields[i])
    else files == []
  }

  ghost predicate FileMatches(file: (string, Entry), f: Field) {
    file.0 == f.name && NormalizeFileRef(f.value) == Some(file.1)
  }

  method ValidateIds(v: Val, safe: bool) returns (ids: Option<seq<string>>)
    ensures ids.Some? <==> IdsOk(v, safe)
    ensures ids.Some? ==> IdsMatch(ids.value, v)
  {
    if v == Undefined {
      return Some([]);
    }
    if !v.Arr? {
      return None;
    }
    var out := [];
    for i := 0 to |v.items|
      invariant |out| == i && forall j :: 0 <= j < i ==> IdOk(v.items[j], safe) && v.items[j] == Str(out[j])
    {
      if !IdOk(v.items[i], safe) {
        return None;
      }
      out := out + [v.items[i].s];
    }
    return Some(out);
  }

  method ValidateElements(v: Val, valid: ValidIndex) returns (upserts: Option<seq<Upsert>>)
    ensures upserts.Some? <==> ElementsOk(v, valid)
    ensures upserts.Some? ==> UpsertsMatch(upserts.value, v, valid)
  {
    hide Normalize, WellFormed, Renderable;
    if v == Undefined {
      return Some([]);
    }
    if !v.Arr? {
      return None;
    }
    var out := [];
    for i := 0 to |v.items|
      invariant |out| == i
      invariant forall j :: 0 <= j < i ==> WellFormed(out[j]) && NormalizeRaw(v.items[j], valid) == Some(out[j].fields)
    {
      var el := NormalizeRaw(v.items[i], valid);
      if el.None? {
        return None;
      }
      NormalizedIsWellFormed(FieldsOf(v.items[i].fields), valid);
      out := out + [UpsertOf(el.value)];
    }
    return Some(out);
  }

  method ValidateFiles(v: Val) returns (files: Option<seq<(string, Entry)>>)
    ensures files.Some? <==> FilesOk(v)
    ensures files.Some? ==> FilesMatch(files.value, v)
  {
    hide NormalizeFileRef, FileRefUsable;
    if v == Undefined {
      return Some([]);
    }
    if !v.Obj? {
      return None;
    }
    var out: seq<(string, Entry)> := [];
    for i := 0 to |v.fields|
      invariant |out| == i
      invariant forall j :: 0 <= j < i ==> FileOk(v.fields[j]) && FileMatches(out[j], v.fields[j])
    {
      var name := v.fields[i].name;
      if name == "" || name in RESERVED_KEYS {
        return None;
      }
      var ref := NormalizeFileRef(v.fields[i].value);
      if ref.None? {
        return None;
      }
      out := out + [(name, ref.value)];
    }
    return Some(out);
  }

  /** Fail-closed: a batch is accepted as a whole or refused, elements and element ids being judged first. */
  method ValidateBoardOps(raw: RawOps, valid: ValidIndex) returns (r: Result<Ops, BoardError>)
    ensures r.Ok? <==> ElementsOk(raw.elements, valid) && IdsOk(raw.deletedElementIds, false)
                       && IdsOk(raw.deletedFileIds, true) && FilesOk(raw.files)
    ensures r.Err? ==>
              r.error == if ElementsOk(raw.elements, valid) && IdsOk(raw.deletedElementIds, false) then BoardFileInvalid
                         else BoardElementInvalid
    ensures r.Ok? ==> UpsertsMatch(r.value.upserts, raw.elements, valid) && IdsMatch(r.value.deletes, raw.deletedElementIds)
    ensures r.Ok? ==> IdsMatch(r.value.fileDeletes, raw.deletedFileIds) && FilesMatch(r.value.fileUpserts, raw.files)
  {
    hide WellFormed, NormalizeRaw, NormalizeFileRef, FileRefUsable, ElementsOk, IdsOk, FilesOk, Items, UpsertsMatch, IdsMatch, FilesMatch;
    var upserts := ValidateElements(raw.elements, valid);
    if upserts.None? {
      return Err(BoardElementInvalid);
    }
    var deletes := ValidateIds(raw.deletedElementIds, false);
    if deletes.None? {
      return Err(BoardElementInvalid);
    }
    var fileDeletes := ValidateIds(raw.deletedFileIds, true);
    if fileDeletes.None? {
      return Err(BoardFileInvalid);
    }
    var fileUpserts := ValidateFiles(raw.files);
    if fileUpserts.None? {
      return Err(BoardFileInvalid);
    }
    return Ok(Ops(upserts.value, deletes.value, fileUpserts.value, fileDeletes.value));
  }

  // ----- what a batch does -----

  /** A tombstone keeps the entry and supersedes it; what is absent or tombstoned stays as it is. */
  function DeleteSlot(s: Option<Stored>, id: string): Option<Stored> {
    if !IsEntry(s) || Tombstoned(s.value.fields) then s
    else
      var next := CoerceVersion(Get(s.value.fields, "version")) + 1;
      Some(YMap(s.value.fields["version" := Num(next as real)]["versionNonce" := Num(NonceFor(id, next) as real)]["isDeleted" := Bool(true)]))
  }

  function DeleteOne(els: map<string, Stored>, id: string): map<string, Stored> {
    if id in els then els[id := DeleteSlot(Slot(els, id), id).value] else els
  }

  function DeleteMany(els: map<string, Stored>, ids: seq<string>): map<string, Stored> {
    if ids == [] then els else DeleteOne(DeleteMany(els, ids[..|ids| - 1]), ids[|ids| - 1])
  }

  function PutFiles(files: map<string, Stored>, refs: seq<(string, Entry)>): map<string, Stored> {
    if refs == [] then files
    else
      var before, ref := PutFiles(files, refs[..|refs| - 1]), refs[|refs| - 1];
      before[ref.0 := YMap(Written(WriteTarget(Slot(before, ref.0)), ref.1))]
  }

  datatype Maps = Maps(elements: map<string, Stored>, files: map<string, Stored>)

  function Applied(m: Maps, ops: Ops): Maps {
    Maps(DeleteMany(Upserts(m.elements, ops.upserts), ops.deletes),
         PutFiles(m.files - Elements(ops.fileDeletes), ops.fileUpserts))
  }

  ghost function MapsOf(doc: LiveBoard): Maps
    reads doc, doc.elements, doc.files
  {
    Maps(doc.elements.entries, doc.files.entries)
  }

  method ApplyUpserts(m: EntryMap, us: seq<Upsert>)
    modifies m
    ensures m.entries == Upserts(old(m.entries), us)
  {
    hide CasOf, Supersedes;
    for i := 0 to |us|
      invariant m.entries == Upserts(old(m.entries), us[..i])
    {
      var u := us[i];
      assert us[..i + 1] == us[..i] + [u] && us[..i + 1][..i] == us[..i];
      var current := CasOf(Slot(m.entries, u.id));
      if Supersedes(current, u.stamp) {
        m.WriteEntry(u.id, u.fields);
      }
    }
    assert us[..|us|] == us;
  }

  method ApplyDeletes(m: EntryMap, ids: seq<string>)
    modifies m
    ensures m.entries == DeleteMany(old(m.entries), ids)
  {
    hide NonceFor, CoerceVersion, Tombstoned;
    for i := 0 to |ids|
      invariant m.entries == DeleteMany(old(m.entries), ids[..i])
    {
      var id := ids[i];
      assert ids[..i + 1] == ids[..i] + [id] && ids[..i + 1][..i] == ids[..i];
      if IsEntry(Slot(m.entries, id)) {
        var cur := m.entries[id].fields;
        if !Tombstoned(cur) {
          var next := CoerceVersion(Get(cur, "version")) + 1;
          m.SetOne(id, "version", Num(next as real));
          m.SetOne(id, "versionNonce", Num(NonceFor(id, next) as real));
          m.SetOne(id, "isDeleted", Bool(true));
        }
      }
    }
    assert ids[..|ids|] == ids;
  }

  method ApplyFiles(m: EntryMap, gone: seq<string>, refs: seq<(string, Entry)>)
    modifies m
    ensures m.entries == PutFiles(old(m.entries) - Elements(gone), refs)
  {
    for i := 0 to |gone|
      invariant m.entries == old(m.entries) - Elements(gone[..i])
    {
      assert gone[..i + 1] == gone[..i] + [gone[i]];
      ElementsSnoc(gone[..i], gone[i]);
      m.Delete(gone[i]);
    }
    assert gone[..|gone|] == gone;
    for i := 0 to |refs|
      invariant m.entries == PutFiles(old(m.entries) - Elements(gone), refs[..i])
    {
      assert refs[..i + 1] == refs[..i] + [refs[i]] && refs[..i + 1][..i] == refs[..i];
      m.WriteEntry(refs[i].0, refs[i].1);
    }
    assert refs[..|refs|] == refs;
  }

  /** `applyBoardOpsToDoc`: upserts, tombstones, file deletions, file upserts, in place. */
  method ApplyBoardOpsToDoc(doc: LiveBoard, ops: Ops)
    requires doc.Valid()
    modifies doc.elements, doc.files
    ensures MapsOf(doc) == Applied(old(MapsOf(doc)), ops)
  {
    hide Upserts, DeleteMany, PutFiles;
    ApplyUpserts(doc.elements, ops.upserts);
    ApplyDeletes(doc.elements, ops.deletes);
    ApplyFiles(doc.files, ops.fileDeletes, ops.fileUpserts);
  }
}
