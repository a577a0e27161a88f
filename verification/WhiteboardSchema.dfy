/**
 * The shared element schema of the whiteboard: `normalizeElement`, field equality and
 * compare-and-set arbitration, over entries that map field names to values.
 *
 * Whether a string is a legal fractional index is decided by a library; it is a parameter.
 */
module WhiteboardSchema {
  import opened Prelude
  import opened JsValues

  type Entry = map<string, Val>

  const ELEMENT_TYPES: set<string> :=
    {"rectangle", "ellipse", "diamond", "arrow", "line", "freedraw", "text", "image", "frame", "embeddable"}
  const RESERVED_KEYS: set<string> := {"__proto__", "constructor", "prototype"}

  /** What normalization does with a field, by its name. */
  datatype Role =
    | VersionField
    | NonceField
    | DeletedField
    | FiniteField
    | NonNegativeField
    | OpacityField
    | BoundField
    | ParentField
    | PlainField

  function RoleOf(field: string): Role {
    if field == "version" then VersionField
    else if field == "versionNonce" then NonceField
    else if field == "isDeleted" then DeletedField
    else if field in {"x", "y", "angle"} then FiniteField
    else if field in {"width", "height", "strokeWidth", "fontSize"} then NonNegativeField
    else if field == "opacity" then OpacityField
    else if field == "boundElements" then BoundField
    else if field == "frameId" || field == "containerId" then ParentField
    else PlainField
  }

  lemma Roles()
    ensures RoleOf("version") == VersionField && RoleOf("versionNonce") == NonceField
    ensures RoleOf("isDeleted") == DeletedField && RoleOf("boundElements") == BoundField
    ensures RoleOf("frameId") == ParentField && RoleOf("containerId") == ParentField
    ensures RoleOf("id") == PlainField && RoleOf("type") == PlainField
    ensures RoleOf("fileId") == PlainField && RoleOf("index") == PlainField
    ensures forall field :: RoleOf(field) == VersionField ==> field == "version"
    ensures "version" != "versionNonce" && "index" != "version" && "index" != "versionNonce"
    ensures "version" !in RESERVED_KEYS && "versionNonce" !in RESERVED_KEYS
    ensures forall field :: RoleOf(field) != PlainField ==> field != "index"
    ensures "id" != "index" && "type" != "index" && "fileId" != "index"
    ensures "id" != "version" && "type" != "version" && "fileId" != "version"
    ensures "id" != "versionNonce" && "type" != "versionNonce" && "fileId" != "versionNonce"
    ensures "isDeleted" != "version" && "isDeleted" != "versionNonce"
  {
    KeptRoles();
    PrunedRoles();
    DistinctNames();
    hide RoleOf;
  }

  lemma DistinctNames()
    ensures "version" != "versionNonce" && "index" != "version" && "index" != "versionNonce"
    ensures "version" !in RESERVED_KEYS && "versionNonce" !in RESERVED_KEYS
    ensures "id" != "index" && "type" != "index" && "fileId" != "index"
    ensures "id" != "version" && "type" != "version" && "fileId" != "version"
    ensures "id" != "versionNonce" && "type" != "versionNonce" && "fileId" != "versionNonce"
    ensures "isDeleted" != "version" && "isDeleted" != "versionNonce"
  {
    assert |"id"| == 2 && |"type"| == 4 && |"fileId"| == 6 && |"index"| == 5 && |"version"| == 7 && |"versionNonce"| == 12;
    assert |"isDeleted"| == 9 && |"prototype"| == 9 && |"constructor"| == 11 && |"__proto__"| == 9;
  }

  lemma PrunedRoles()
    ensures RoleOf("isDeleted") == DeletedField && RoleOf("boundElements") == BoundField
    ensures RoleOf("frameId") == ParentField && RoleOf("containerId") == ParentField
    ensures RoleOf("version") == VersionField && RoleOf("versionNonce") == NonceField
    ensures forall field :: RoleOf(field) == VersionField ==> field == "version"
  {
    assert |"version"| == 7 && |"versionNonce"| == 12 && |"isDeleted"| == 9 && |"boundElements"| == 13 && |"containerId"| == 11;
    assert "frameId"[0] == 'f' && "version"[0] == 'v' && "opacity"[0] == 'o' && |"opacity"| == 7;
    assert |"strokeWidth"| == 11 && "strokeWidth"[0] == 's' && "containerId"[0] == 'c';
    assert |"fontSize"| == 8;
  }

  lemma KeptRoles()
    ensures RoleOf("id") == PlainField && RoleOf("type") == PlainField
    ensures RoleOf("fileId") == PlainField && RoleOf("index") == PlainField
    ensures forall field :: RoleOf(field) != PlainField ==> field != "index"
  {
    assert |"id"| == 2 && |"type"| == 4 && |"fileId"| == 6 && |"index"| == 5;
    assert "index"[0] == 'i' && "width"[0] == 'w' && "angle"[0] == 'a';
    assert "height"[0] == 'h' && "fileId"[0] == 'f';
  }

  function Get(e: Entry, field: string): Val {
    if field in e then e[field] else Undefined
  }

  // ----- normalization -----

  function CoerceVersion(v: Val): (n: nat)
    ensures n >= 1
  {
    if IsInteger(v) && v.n >= 1.0 then v.n.Floor else 1
  }

  /** The 32-bit FNV-1a hash of a string, as far as the model reads it: some non-negative integer. */
  function Fnv(seed: string, h: bv32): bv32
    decreases |seed|
  {
    if seed == "" then h else Fnv(seed[1..], (h ^ CharBits(seed[0])) * 0x01000193)
  }

  function CharBits(c: char): bv32 {
    (c as int % 0x10000) as bv32
  }

  function DeterministicNonce(seed: string): nat {
    (Fnv(seed, 0x811c9dc5) & 0x7fffffff) as nat
  }

  function Decimal(n: nat): string {
    if n < 10 then [Digit(n)] else Decimal(n / 10) + [Digit(n % 10)]
  }

  function Digit(d: nat): char
    requires d < 10
  {
    "0123456789"[d]
  }

  function NonceFor(id: string, version: nat): nat {
    DeterministicNonce(id + ":" + Decimal(version))
  }

  function Clamp(v: Val): Val {
    if v.Num? then v else Num(0.0)
  }

  function ClampPositive(v: Val): Val {
    if v.Num? && v.n >= 0.0 then v else Num(0.0)
  }

  function ClampOpacity(v: Val): Val {
    var o := if v.Num? then v.n else 100.0;
    Num(if o < 0.0 then 0.0 else if o > 100.0 then 100.0 else o)
  }

  /** The `id` of one entry of `boundElements`, when it has a string one. */
  function ItemId(b: Val): Option<string> {
    if b.Obj? then FieldId(b.fields) else None
  }

  function FieldId(fields: seq<Field>): Option<string> {
    if fields == [] then None
    else if fields[0].name == "id" then (if fields[0].value.Str? then Some(fields[0].value.s) else None)
    else FieldId(fields[1..])
  }

  function KeepBound(items: seq<Val>, ids: set<string>): (out: seq<Val>)
    ensures |out| <= |items|
    ensures |out| == |items| ==> out == items
    ensures forall b :: b in out ==> b in items && ItemId(b).Some? && ItemId(b).value in ids
  {
    if items == [] then []
    else
      var rest := KeepBound(items[1..], ids);
      if ItemId(items[0]).Some? && ItemId(items[0]).value in ids then
        assert items == [items[0]] + items[1..];
        [items[0]] + rest
      else rest
  }

  lemma {:induction false} KeepBoundAgain(items: seq<Val>, ids: set<string>)
    requires forall b :: b in items ==> ItemId(b).Some? && ItemId(b).value in ids
    ensures KeepBound(items, ids) == items
  {
    if items != [] {
      assert items[0] in items;
      KeepBoundAgain(items[1..], ids);
    }
  }

  /** The library's test for a legal fractional index. */
  type ValidIndex = string -> bool

  predicate HasValidIndex(e: Entry, valid: ValidIndex) {
    "index" in e && e["index"].Str? && e["index"].s != "" && valid(e["index"].s)
  }

  /** An element that can be rendered: it has an id, a known type and no reserved field. */
  predicate Renderable(e: Entry) {
    && Get(e, "id").Str? && Get(e, "id").s != ""
    && Get(e, "type").Str? && Get(e, "type").s in ELEMENT_TYPES
    && e.Keys !! RESERVED_KEYS
  }

  /** `refs` is the set of ids that references may name; without it references are kept. */
  function NormalizedField(e: Entry, field: string, refs: Option<set<string>>): Val
    requires Renderable(e)
  {
    var v := Get(e, field);
    match RoleOf(field)
    case VersionField => Num(CoerceVersion(v) as real)
    case NonceField => if IsInteger(v) then v else Num(NonceFor(e["id"].s, CoerceVersion(Get(e, "version"))) as real)
    case DeletedField => Bool(v == Bool(true))
    case FiniteField => Clamp(v)
    case NonNegativeField => ClampPositive(v)
    case OpacityField => ClampOpacity(v)
    case BoundField => if refs.Some? && v.Arr? then Arr(KeepBound(v.items, refs.value)) else v
    case ParentField => if refs.Some? && v.Str? && v.s !in refs.value then Null else v
    case PlainField => v
  }

  function NormalizedKeys(e: Entry, valid: ValidIndex): set<string> {
    (e.Keys + {"version", "versionNonce"}) - (if HasValidIndex(e, valid) then {} else {"index"})
  }

  function Normalize(e: Entry, refs: Option<set<string>>, valid: ValidIndex): (n: Option<Entry>)
    ensures n.Some? <==> Renderable(e)
  {
    if Renderable(e) then Some(map field | field in NormalizedKeys(e, valid) :: NormalizedField(e, field, refs))
    else None
  }

  function Tombstoned(e: Entry): bool {
    Get(e, "isDeleted") == Bool(true)
  }

  /** The ids an entry refers to. */
  function RefsOf(e: Entry): set<string> {
    (if Get(e, "containerId").Str? then {Get(e, "containerId").s} else {}) +
    (if Get(e, "frameId").Str? then {Get(e, "frameId").s} else {}) +
    (if Get(e, "boundElements").Arr? then BoundIds(Get(e, "boundElements").items) else {})
  }

  function BoundIds(items: seq<Val>): set<string> {
    set b | b in items && ItemId(b).Some? :: ItemId(b).value
  }

  // ----- what normalization guarantees -----

  lemma NormalizedGet(e: Entry, refs: Option<set<string>>, valid: ValidIndex, field: string)
    requires Renderable(e)
    ensures Get(Normalize(e, refs, valid).value, field)
         == if field in NormalizedKeys(e, valid) then NormalizedField(e, field, refs) else Undefined
  {
    hide NormalizedField, NormalizedKeys, Renderable;
  }

  /** Normalization keeps the identity, the kind, the file and the tombstone flag of an element. */
  lemma NormalizeKeeps(e: Entry, refs: Option<set<string>>, valid: ValidIndex)
    requires Renderable(e)
    ensures Renderable(Normalize(e, refs, valid).value)
    ensures forall field :: field in {"id", "type", "fileId"} ==> Get(Normalize(e, refs, valid).value, field) == Get(e, field)
    ensures Tombstoned(Normalize(e, refs, valid).value) <==> Tombstoned(e)
    ensures HasValidIndex(Normalize(e, refs, valid).value, valid) <==> HasValidIndex(e, valid)
    ensures "index" in Normalize(e, refs, valid).value <==> HasValidIndex(e, valid)
    ensures HasValidIndex(e, valid) ==> Normalize(e, refs, valid).value["index"] == e["index"]
    ensures CoerceVersion(Get(Normalize(e, refs, valid).value, "version")) == CoerceVersion(Get(e, "version"))
  {
    Roles();
    hide RoleOf, KeepBound, NonceFor, CoerceVersion;
    assert CoerceVersion(Num(CoerceVersion(Get(e, "version")) as real)) == CoerceVersion(Get(e, "version")) by {
      CoerceTwice(Get(e, "version"));
    }
  }

  lemma CoerceTwice(v: Val)
    ensures CoerceVersion(Num(CoerceVersion(v) as real)) == CoerceVersion(v)
  {
  }

  lemma NormalizedVersionsAreNumbers(e: Entry, refs: Option<set<string>>, valid: ValidIndex)
    requires Renderable(e)
    ensures Get(Normalize(e, refs, valid).value, "version").Num? && Get(Normalize(e, refs, valid).value, "versionNonce").Num?
  {
    Roles();
    NormalizedVersions(e, valid);
    hide RoleOf, Renderable, CoerceVersion, NonceFor, NormalizedKeys;
    NormalizedGet(e, refs, valid, "version");
    NormalizedGet(e, refs, valid, "versionNonce");
  }

  /** Every surviving reference names an allowed id. */
  lemma NormalizePrunes(e: Entry, refs: set<string>, valid: ValidIndex)
    requires Renderable(e)
    ensures RefsOf(Normalize(e, Some(refs), valid).value) <= refs
  {
    Roles();
    hide RoleOf, Renderable;
    NormalizedGet(e, Some(refs), valid, "containerId");
    NormalizedGet(e, Some(refs), valid, "frameId");
    NormalizedGet(e, Some(refs), valid, "boundElements");
    hide Normalize, NormalizedKeys;
  }

  lemma {:induction false} NormalizedTwice(e: Entry, n: Entry, field: string, refs: Option<set<string>>)
    requires Renderable(e) && Renderable(n)
    requires Get(n, "id") == Get(e, "id") && CoerceVersion(Get(n, "version")) == CoerceVersion(Get(e, "version"))
    requires Get(n, field) == NormalizedField(e, field, refs)
    ensures NormalizedField(n, field, refs) == Get(n, field)
  {
    hide RoleOf, KeepBound, NonceFor;
    if RoleOf(field) == VersionField {
      CoerceTwice(Get(e, field));
    } else if RoleOf(field) == BoundField && refs.Some? && Get(e, field).Arr? {
      KeepBoundAgain(KeepBound(Get(e, field).items, refs.value), refs.value);
    }
  }

  /** Normalizing twice is normalizing once. */
  lemma NormalizeIdempotent(e: Entry, refs: Option<set<string>>, valid: ValidIndex)
    requires Renderable(e)
    ensures Normalize(Normalize(e, refs, valid).value, refs, valid) == Normalize(e, refs, valid)
  {
    NormalizeKeeps(e, refs, valid);
    NormalizedVersions(e, valid);
    hide NormalizedField, HasValidIndex, Renderable, RoleOf;
    var n := Normalize(e, refs, valid).value;
    assert NormalizedKeys(n, valid) == n.Keys;
    var again := Normalize(n, refs, valid).value;
    assert again.Keys == n.Keys;
    forall field | field in n
      ensures again[field] == n[field]
    {
      NormalizedTwice(e, n, field, refs);
    }
    assert again == n;
  }

  lemma NormalizedVersions(e: Entry, valid: ValidIndex)
    ensures {"version", "versionNonce"} <= NormalizedKeys(e, valid)
  {
    Roles();
    hide HasValidIndex, RoleOf;
  }

  /** Normalization never replaces an object by a different one with the same JSON text. */
  lemma NormalizedOrSame(e: Entry, field: string, refs: Option<set<string>>)
    requires Renderable(e) && FieldEquals(Get(e, field), NormalizedField(e, field, refs))
    ensures Get(e, field) == NormalizedField(e, field, refs)
  {
    hide RoleOf, NonceFor;
  }

  // ----- compare-and-set arbitration -----

  datatype Stamp = Stamp(version: int, nonce: int)

  /** A higher version wins; at equal versions the smaller nonce wins. */
  predicate Supersedes(current: Option<Stamp>, incoming: Stamp) {
    || current.None?
    || incoming.version > current.value.version
    || (incoming.version == current.value.version && incoming.nonce < current.value.nonce)
  }
}
