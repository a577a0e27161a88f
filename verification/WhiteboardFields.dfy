/**
 * What normalization and repair do to an element, field by field: which values stay, what
 * illegal ones become, and that repair leaves legal elements alone over every run.
 */
module WhiteboardFields {
  import opened Prelude
  import opened Strings
  import opened JsValues
  import opened WhiteboardSchema
  import opened EntryMaps
  import opened RepairSpec
  import opened RepairLaws
  import opened SeqFacts

  // ----- one field -----

  const POSITIONS: set<string> := {"x", "y", "angle"}
  const SIZES: set<string> := {"width", "height", "strokeWidth", "fontSize"}
  const REFERENCES: set<string> := {"containerId", "frameId", "boundElements"}

  lemma NamesOfFields()
    ensures RoleOf("x") == FiniteField && RoleOf("y") == FiniteField && RoleOf("angle") == FiniteField
    ensures RoleOf("width") == NonNegativeField && RoleOf("height") == NonNegativeField
    ensures RoleOf("strokeWidth") == NonNegativeField && RoleOf("fontSize") == NonNegativeField
    ensures RoleOf("opacity") == OpacityField
  {
    assert |"version"| == 7 && |"versionNonce"| == 12 && |"isDeleted"| == 9;
    assert |"x"| == 1 && |"y"| == 1 && |"angle"| == 5 && |"width"| == 5 && |"height"| == 6 && |"strokeWidth"| == 11 && |"fontSize"| == 8;
    assert |"opacity"| == 7 && "opacity"[0] == 'o' && "version"[0] == 'v' && "angle"[0] == 'a' && "width"[0] == 'w';
  }

  lemma OtherFields(field: string)
    requires field !in POSITIONS + SIZES + REFERENCES + {"version", "versionNonce", "isDeleted", "opacity"}
    ensures RoleOf(field) == PlainField
  {
  }

  predicate WholeNumber(v: Val) {
    v.Num? && v.n == v.n.Floor as real
  }

  /** What a field other than the index and the references becomes. */
  function Becomes(v: Val, field: string, id: string, version: nat): Val {
    if field in POSITIONS then (if v.Num? then v else Num(0.0))
    else if field in SIZES then (if v.Num? && v.n >= 0.0 then v else Num(0.0))
    else if field == "opacity" then
      if !v.Num? then Num(100.0) else if v.n < 0.0 then Num(0.0) else if v.n > 100.0 then Num(100.0) else v
    else if field == "isDeleted" then (if v == Bool(true) then v else Bool(false))
    else if field == "version" then (if WholeNumber(v) && v.n >= 1.0 then v else Num(1.0))
    else if field == "versionNonce" then (if WholeNumber(v) then v else Num(DeterministicNonce(id + ":" + Decimal(version)) as real))
    else v
  }

  lemma ValueBecomes(e: Entry, field: string, refs: Option<set<string>>)
    requires Renderable(e) && field !in REFERENCES + {"index"}
    ensures NormalizedField(e, field, refs) == Becomes(Get(e, field), field, e["id"].s, VersionOf(e))
  {
    Roles();
    NamesOfFields();
    NumericNames();
    VersionIs(e);
    hide RoleOf, Renderable, DeterministicNonce, Decimal, CoerceVersion, VersionOf, KeepBound;
    if field !in POSITIONS + SIZES + REFERENCES + {"version", "versionNonce", "isDeleted", "opacity"} {
      OtherFields(field);
    } else if field in POSITIONS {
      assert RoleOf(field) == FiniteField;
    } else if field in SIZES {
      assert RoleOf(field) == NonNegativeField;
    }
  }

  /** Normalization, by the names of the fields. */
  lemma FieldBecomes(e: Entry, field: string, refs: Option<set<string>>, valid: ValidIndex)
    requires Renderable(e) && field !in REFERENCES + {"index"}
    ensures var n := Normalize(e, refs, valid).value;
            && (field in n <==> field in e || field == "version" || field == "versionNonce")
            && (field in n ==> n[field] == Becomes(Get(e, field), field, e["id"].s, VersionOf(e)))
  {
    ValueBecomes(e, field, refs);
    hide NormalizedField, Renderable, Becomes, VersionOf;
  }

  /** The version an element counts as having. */
  function VersionOf(e: Entry): (v: nat) {
    var v := Get(e, "version");
    if WholeNumber(v) && v.n >= 1.0 then v.n.Floor else 1
  }

  lemma VersionIs(e: Entry)
    ensures VersionOf(e) == CoerceVersion(Get(e, "version"))
    ensures Num(CoerceVersion(Get(e, "version")) as real)
         == if WholeNumber(Get(e, "version")) && Get(e, "version").n >= 1.0 then Get(e, "version") else Num(1.0)
  {
  }

  /** The index stays exactly when it is legal. */
  lemma IndexBecomes(e: Entry, refs: Option<set<string>>, valid: ValidIndex)
    requires Renderable(e)
    ensures var n := Normalize(e, refs, valid).value; var v := Get(e, "index");
            ("index" in n <==> v.Str? && v.s != "" && valid(v.s)) && ("index" in n ==> n["index"] == v)
  {
    NormalizeKeeps(e, refs, valid);
    hide Normalize, Renderable;
  }

  /** A container or frame that is no valid target becomes null; without targets to judge by it stays. */
  lemma ParentBecomes(e: Entry, field: string, refs: Option<set<string>>, valid: ValidIndex)
    requires Renderable(e) && field in {"containerId", "frameId"}
    ensures var n := Normalize(e, refs, valid).value; var v := Get(e, field);
            && (field in n <==> field in e)
            && (field in n ==> n[field] == if refs.Some? && v.Str? && v.s !in refs.value then Null else v)
  {
    Roles();
    ReferenceNames();
    NormalizedGet(e, refs, valid, field);
    hide RoleOf, Renderable;
  }

  lemma ReferenceNames()
    ensures REFERENCES !! {"version", "versionNonce", "index"}
  {
    assert |"containerId"| == 11 && |"boundElements"| == 13 && |"version"| == 7 && |"versionNonce"| == 12 && |"index"| == 5;
    assert |"frameId"| == 7 && "frameId"[0] == 'f' && "version"[0] == 'v';
  }

  /** Bound elements: each item that names a valid target stays, in order. */
  lemma BoundBecome(e: Entry, refs: Option<set<string>>, valid: ValidIndex)
    requires Renderable(e)
    ensures var n := Normalize(e, refs, valid).value; var v := Get(e, "boundElements");
            && ("boundElements" in n <==> "boundElements" in e)
            && ("boundElements" in n ==> n["boundElements"] == if refs.Some? && v.Arr? then Arr(KeepBound(v.items, refs.value)) else v)
  {
    Roles();
    ReferenceNames();
    NormalizedGet(e, refs, valid, "boundElements");
    hide RoleOf, Renderable, KeepBound;
  }

  lemma {:induction false} BoundItems(items: seq<Val>, item: Val, ids: set<string>)
    ensures KeepBound([], ids) == []
    ensures KeepBound(items + [item], ids) == KeepBound(items, ids) + (if ItemId(item).Some? && ItemId(item).value in ids then [item] else [])
  {
    hide ItemId;
    if items == [] {
      assert [item][1..] == [] && items + [item] == [item];
    } else {
      assert (items + [item])[1..] == items[1..] + [item] && (items + [item])[0] == items[0];
      BoundItems(items[1..], item, ids);
      var head := if ItemId(items[0]).Some? && ItemId(items[0]).value in ids then [items[0]] else [];
      var tail := if ItemId(item).Some? && ItemId(item).value in ids then [item] else [];
      Assoc(head, KeepBound(items[1..], ids), tail);
      AppendNil(KeepBound(items[1..], ids));
    }
  }

  /** The id of a written item. */
  lemma ItemIdIs(id: string, kind: Val)
    ensures ItemId(Obj([Field("id", Str(id)), Field("type", kind)])) == Some(id)
    ensures ItemId(Obj([Field("type", kind), Field("id", Str(id))])) == Some(id)
    ensures ItemId(Obj([Field("type", kind)])) == None
    ensures ItemId(Str(id)) == None && ItemId(Null) == None
  {
    assert "type" != "id" by {
      assert |"type"| == 4 && |"id"| == 2;
    }
    var a, b, c := [Field("id", Str(id)), Field("type", kind)], [Field("type", kind), Field("id", Str(id))], [Field("type", kind)];
    assert b[1..] == [Field("id", Str(id))] && c[1..] == [];
    assert FieldId(b) == FieldId(b[1..]) && FieldId(c) == FieldId(c[1..]);
  }

  // ----- legal elements -----

  /** The value is one that normalization keeps under that name. */
  predicate LegalValue(v: Val, field: string) {
    && (field in POSITIONS ==> v.Num?)
    && (field in SIZES ==> v.Num? && v.n >= 0.0)
    && (field == "opacity" ==> v.Num? && 0.0 <= v.n <= 100.0)
    && (field == "isDeleted" ==> v.Bool?)
    && (field == "version" ==> WholeNumber(v) && v.n >= 1.0)
    && (field == "versionNonce" ==> WholeNumber(v))
  }

  lemma LegalStays(v: Val, field: string, id: string, version: nat)
    requires field !in REFERENCES + {"index"}
    ensures LegalValue(v, field) ==> Becomes(v, field, id, version) == v
    ensures !LegalValue(v, field) ==> Becomes(v, field, id, version) != v
  {
    NumericNames();
    hide DeterministicNonce, Decimal;
  }

  lemma NumericNames()
    ensures POSITIONS !! SIZES && "opacity" !in POSITIONS + SIZES
    ensures {"isDeleted", "version", "versionNonce"} !! POSITIONS + SIZES + {"opacity"}
    ensures "isDeleted" != "version" && "isDeleted" != "versionNonce" && "version" != "versionNonce"
  {
    assert |"version"| == 7 && |"versionNonce"| == 12 && |"isDeleted"| == 9;
    assert |"x"| == 1 && |"y"| == 1 && |"angle"| == 5 && |"width"| == 5 && |"height"| == 6 && |"strokeWidth"| == 11 && |"fontSize"| == 8;
    assert |"opacity"| == 7 && "opacity"[0] == 'o' && "version"[0] == 'v' && "angle"[0] == 'a' && "width"[0] == 'w';
  }

  /** All references name valid targets. */
  predicate LiveReferences(e: Entry, refs: set<string>) {
    && (forall field :: field in {"containerId", "frameId"} && Get(e, field).Str? ==> Get(e, field).s in refs)
    && (Get(e, "boundElements").Arr? ==> forall b :: b in Get(e, "boundElements").items ==> ItemId(b).Some? && ItemId(b).value in refs)
  }

  predicate LegalElement(e: Entry, refs: set<string>, valid: ValidIndex) {
    && Renderable(e)
    && "version" in e && "versionNonce" in e
    && (forall field :: field in e && field !in REFERENCES + {"index"} ==> LegalValue(e[field], field))
    && ("index" in e ==> HasValidIndex(e, valid))
    && LiveReferences(e, refs)
  }

  lemma KeepsAllIff(items: seq<Val>, ids: set<string>)
    ensures KeepBound(items, ids) == items <==> forall b :: b in items ==> ItemId(b).Some? && ItemId(b).value in ids
  {
    if forall b :: b in items ==> ItemId(b).Some? && ItemId(b).value in ids {
      KeepBoundAgain(items, ids);
    }
  }

  /** One field is fine: legal, or a legal index, or a live reference. */
  predicate Fine(e: Entry, field: string, refs: set<string>, valid: ValidIndex)
    requires field in e
  {
    if field == "index" then HasValidIndex(e, valid)
    else if field == "boundElements" then
      e[field].Arr? ==> forall b :: b in e[field].items ==> ItemId(b).Some? && ItemId(b).value in refs
    else if field in REFERENCES then e[field].Str? ==> e[field].s in refs
    else LegalValue(e[field], field)
  }

  lemma FineIff(e: Entry, field: string, refs: set<string>, valid: ValidIndex)
    requires Renderable(e)
    ensures var n := Normalize(e, Some(refs), valid).value;
            && (field in n ==> field in e || field in {"version", "versionNonce"})
            && (field in {"version", "versionNonce"} ==> field in n)
            && (field in e ==> (field in n && n[field] == e[field] <==> Fine(e, field, refs, valid)))
  {
    IndexBecomes(e, Some(refs), valid);
    BoundBecome(e, Some(refs), valid);
    ReferenceNames();
    if Get(e, "boundElements").Arr? {
      KeepsAllIff(Get(e, "boundElements").items, refs);
    }
    if field in {"containerId", "frameId"} {
      ParentBecomes(e, field, Some(refs), valid);
    } else if field !in REFERENCES + {"index"} {
      FieldBecomes(e, field, Some(refs), valid);
      LegalStays(Get(e, field), field, e["id"].s, VersionOf(e));
    }
    hide Normalize, Renderable, Becomes, LegalValue, KeepBound, ItemId, VersionOf;
  }

  lemma LegalIsFine(e: Entry, refs: set<string>, valid: ValidIndex)
    requires Renderable(e)
    ensures LegalElement(e, refs, valid) <==> "version" in e && "versionNonce" in e && forall field :: field in e ==> Fine(e, field, refs, valid)
  {
    ReferenceNames();
    hide LegalValue, ItemId, Renderable, HasValidIndex;
    if LegalElement(e, refs, valid) {
      forall field | field in e
        ensures Fine(e, field, refs, valid)
      {
        assert Get(e, field) == e[field];
      }
    }
    if forall field :: field in e ==> Fine(e, field, refs, valid) {
      forall field | field in e && field !in REFERENCES + {"index"}
        ensures LegalValue(e[field], field)
      {
        assert Fine(e, field, refs, valid);
      }
      assert "boundElements" in e ==> Fine(e, "boundElements", refs, valid);
      assert "containerId" in e ==> Fine(e, "containerId", refs, valid);
      assert "frameId" in e ==> Fine(e, "frameId", refs, valid);
      assert "index" in e ==> Fine(e, "index", refs, valid);
    }
  }

  /** Normalization leaves an element as it is exactly when all its fields are legal. */
  lemma LegalIff(e: Entry, refs: set<string>, valid: ValidIndex)
    requires Renderable(e)
    ensures Normalize(e, Some(refs), valid) == Some(e) <==> LegalElement(e, refs, valid)
  {
    hide *;
    LegalIsFine(e, refs, valid);
    var n := Normalize(e, Some(refs), valid).value;
    forall field
      ensures field in n ==> field in e || field in {"version", "versionNonce"}
      ensures field in {"version", "versionNonce"} ==> field in n
      ensures field in e ==> (field in n && n[field] == e[field] <==> Fine(e, field, refs, valid))
    {
      FineIff(e, field, refs, valid);
    }
    if LegalElement(e, refs, valid) {
      assert n == e;
    }
  }

  // ----- the nonce that fills in -----

  /** The published 32-bit FNV-1a hash of one letter, without its top bit. */
  lemma HashOfLetter()
    ensures DeterministicNonce("a") == 0x640c_292c
  {
    assert "a"[1..] == "" && CharBits('a') == 97;
    var start: bv32 := 0x811c_9dc5;
    assert Fnv("a", start) == (start ^ 97) * 0x0100_0193 == 0xe40c_292c;
  }

  /** The hash reads its characters from the first to the last. */
  lemma {:induction false} HashReadsOn(s: string, c: char, h: bv32)
    ensures Fnv(s + [c], h) == Mixed(Fnv(s, h), c)
  {
    if s == "" {
      assert s + [c] == [c] && [c][1..] == "";
      HashMixes([c], h);
    } else {
      var t := s + [c];
      assert t[0] == s[0] && t[1..] == s[1..] + [c];
      HashMixes(t, h);
      HashMixes(s, h);
      hide Fnv, Mixed;
      HashReadsOn(s[1..], c, Mixed(h, s[0]));
    }
  }

  function Mixed(h: bv32, c: char): bv32 {
    (h ^ CharBits(c)) * 0x0100_0193
  }

  lemma HashMixes(s: string, h: bv32)
    requires s != ""
    ensures Fnv(s, h) == Fnv(s[1..], Mixed(h, s[0]))
  {
  }

  /** A version is written in decimal, without leading zeros. */
  lemma {:induction false} DecimalReads(n: nat)
    ensures Digits(Decimal(n)) && Value(Decimal(n)) == n
    ensures n > 0 ==> Decimal(n)[0] != '0'
  {
    var d := Digit(n % 10);
    assert '0' <= d <= '9' && (d - '0') as int == n % 10 by {
      DigitReads(n % 10);
    }
    if n < 10 {
      assert [d][..0] == [];
    } else {
      DecimalReads(n / 10);
      var front := Decimal(n / 10);
      assert (front + [d])[..|front + [d]| - 1] == front;
    }
  }

  lemma DigitReads(d: nat)
    requires d < 10
    ensures '0' <= Digit(d) <= '9' && (Digit(d) - '0') as int == d
  {
  }

  // ----- passes -----

  /** The elements that references may name: there, renderable, not deleted, and no image the pass drops. */
  lemma TargetsAre(b: Board, policy: FilePolicy, s: string)
    ensures s in Referenceable(b, policy) <==>
            && s in b.elements && Renderable(Current(b, s)) && Get(Current(b, s), "isDeleted") != Bool(true)
            && !(policy.JustDeleted? && Get(Current(b, s), "type") == Str("image") && Get(Current(b, s), "fileId").Str?
                 && Get(Current(b, s), "fileId").s in policy.ids && Get(Current(b, s), "fileId").s !in b.files)
  {
    hide Renderable, Current;
  }

  /** Of the elements in its scope a pass rewrites exactly those that are not legal or lack a legal index. */
  lemma RewrittenIff(b: Board, scope: Option<set<string>>, policy: FilePolicy, lib: IndexLibrary, id: string)
    requires Lawful(lib) && id in b.elements
    ensures id in PlanFor(b, scope, policy, lib).writes <==>
            && id in Survivors(b, policy) && InScope(scope, id)
            && !(LegalElement(Current(b, id), Referenceable(b, policy), lib.valid) && HasValidIndex(Current(b, id), lib.valid))
  {
    var e, p := Current(b, id), PassOf(b, policy, lib);
    assert p.refs == Referenceable(b, policy) && p.valid == lib.valid;
    hide *;
    PlanOn(b, scope, policy, lib, id);
    if id in Survivors(b, policy) {
      PassFits(b, policy, lib, id);
      LegalIff(e, p.refs, p.valid);
      CanonizedSame(e, id, p);
      if ObjectEquals(e, Canonized(e, id, p)) {
        UnwrittenIsFinal(e, id, p);
      }
      EqualToItself(e);
    }
  }

  lemma EqualToItself(e: Entry)
    ensures ObjectEquals(e, e)
  {
  }

  lemma CanonizedSame(e: Entry, id: string, p: Pass)
    requires Renderable(e) && Fills(e, id, p)
    ensures Canonized(e, id, p) == e <==> Normalize(e, Some(p.refs), p.valid) == Some(e) && HasValidIndex(e, p.valid)
  {
    hide Normalize, Renderable;
  }

  /** The element can be rendered and has this value under the field, wherever it still is. */
  predicate FieldIs(b: Board, id: string, field: string, v: Val) {
    id in b.elements ==> Renderable(Current(b, id)) && Get(Current(b, id), field) == v
  }

  lemma NormalKeeps(e: Entry, field: string, refs: Option<set<string>>, valid: ValidIndex)
    requires Renderable(e) && field !in REFERENCES + {"index"} && LegalValue(Get(e, field), field)
    ensures Get(Normalize(e, refs, valid).value, field) == Get(e, field)
  {
    FieldBecomes(e, field, refs, valid);
    LegalStays(Get(e, field), field, e["id"].s, VersionOf(e));
    hide Normalize, Renderable, Becomes, VersionOf;
  }

  /** A pass keeps every legal value. */
  lemma PassKeepsField(b: Board, scope: Option<set<string>>, policy: FilePolicy, lib: IndexLibrary, id: string, field: string, v: Val)
    requires FieldIs(b, id, field, v) && field !in REFERENCES + {"index"} && LegalValue(v, field)
    ensures FieldIs(Repaired(b, scope, policy, lib), id, field, v)
  {
    var after, p := Repaired(b, scope, policy, lib), PassOf(b, policy, lib);
    hide Repaired, Renderable, Canonized, PassOf, Realizes, LegalValue, Survivors, Get, Current, Normalize;
    PassAddsNothing(b, scope, policy, lib);
    if id in after.elements {
      var e := Current(b, id);
      PassElement(b, scope, policy, lib, id);
      if InScope(scope, id) {
        NormalKeeps(e, field, Some(p.refs), p.valid);
        RealizedGet(e, id, p, Current(after, id), field);
        RealizedFields(e, id, p, Current(after, id));
      } else {
        SameCurrent(b, after, id);
      }
    }
  }

  /** An event, with all that repair does after it, keeps every legal value the users left. */
  lemma EventKeepsField(b: Board, ev: Event, lib: IndexLibrary, id: string, field: string, v: Val)
    requires FieldIs(Submitted(b, ev), id, field, v) && field !in REFERENCES + {"index"} && LegalValue(v, field)
    ensures FieldIs(Observed(b, ev, lib), id, field, v)
  {
    hide Repaired, LegalValue, FieldIs, LiveScope;
    match ev
    case Load =>
      PassKeepsField(b, None, ColdStart, lib, id, field, v);
    case Transaction(now, changed, filesFirst) =>
      var deleted := DeletedFiles(b, now);
      if filesFirst {
        PassKeepsField(now, None, JustDeleted(deleted), lib, id, field, v);
        var mid := FilesPass(now, deleted, lib);
        PassKeepsField(mid, Some(LiveScope(mid, changed)), NoDrop, lib, id, field, v);
      } else {
        PassKeepsField(now, Some(LiveScope(now, changed)), NoDrop, lib, id, field, v);
        PassKeepsField(ElementsPass(now, changed, lib), None, JustDeleted(deleted), lib, id, field, v);
      }
  }

  /** Over every run a legal value stays as long as no transaction changes it. */
  lemma {:induction false} RunKeepsField(b: Board, evs: seq<Event>, lib: IndexLibrary, id: string, field: string, v: Val)
    requires FieldIs(b, id, field, v) && field !in REFERENCES + {"index"} && LegalValue(v, field)
    requires forall k :: 0 <= k < |evs| && evs[k].Transaction? ==> FieldIs(evs[k].now, id, field, v)
    ensures FieldIs(RunOf(b, evs, lib), id, field, v)
  {
    hide Observed, LegalValue, FieldIs;
    if evs != [] {
      var front, last := evs[..|evs| - 1], evs[|evs| - 1];
      assert forall k :: 0 <= k < |front| ==> front[k] == evs[k];
      RunKeepsField(b, front, lib, id, field, v);
      EventKeepsField(RunOf(b, front, lib), last, lib, id, field, v);
    }
  }

  /** In its scope a pass clears a container or frame exactly when it is no valid target; the rest stays. */
  lemma PassParents(b: Board, scope: Option<set<string>>, policy: FilePolicy, lib: IndexLibrary, id: string, field: string)
    requires id in b.elements && Renderable(Current(b, id)) && field in {"containerId", "frameId"}
    requires id in Repaired(b, scope, policy, lib).elements
    ensures var v := Get(Current(b, id), field);
            Get(Current(Repaired(b, scope, policy, lib), id), field) == (if InScope(scope, id) && v.Str? && v.s !in Referenceable(b, policy) then Null else v)
  {
    var after, p, e := Repaired(b, scope, policy, lib), PassOf(b, policy, lib), Current(b, id);
    assert p.refs == Referenceable(b, policy);
    ReferenceNames();
    ParentBecomes(e, field, Some(p.refs), p.valid);
    hide Repaired, Renderable, Canonized, PassOf, Realizes, Survivors, Current, Normalize, Referenceable;
    PassElement(b, scope, policy, lib, id);
    if InScope(scope, id) {
      RealizedGet(e, id, p, Current(after, id), field);
    } else {
      SameCurrent(b, after, id);
    }
  }

  // ----- references -----

  predicate RefersTo(e: Entry, s: string) {
    || Get(e, "containerId") == Str(s)
    || Get(e, "frameId") == Str(s)
    || (Get(e, "boundElements").Arr? && exists b :: b in Get(e, "boundElements").items && ItemId(b) == Some(s))
  }

  lemma RefsAre(e: Entry, s: string)
    ensures s in RefsOf(e) <==> RefersTo(e, s)
  {
    hide ItemId;
  }

  /** No reference names an element that is absent, unrenderable or deleted. */
  lemma IntactMeans(b: Board)
    ensures Intact(b) <==>
            forall id, s :: id in b.elements && RefersTo(Current(b, id), s) ==>
              s in b.elements && Renderable(Current(b, s)) && Get(Current(b, s), "isDeleted") != Bool(true)
  {
    hide RefersTo, RefsOf, Renderable, Referenceable, Current;
    forall id, s
      ensures s in RefsOf(Current(b, id)) <==> RefersTo(Current(b, id), s)
      ensures s in Referenceable(b, NoDrop) <==> s in b.elements && Renderable(Current(b, s)) && Get(Current(b, s), "isDeleted") != Bool(true)
    {
      RefsAre(Current(b, id), s);
      TargetsAre(b, NoDrop, s);
    }
  }

  /** A live pass leaves alone whatever was not changed and names no element that was removed. */
  lemma LivePassTouches(b: Board, changed: set<string>, lib: IndexLibrary, id: string)
    requires id in b.elements && id !in changed
    requires forall s :: s in changed && RefersTo(Current(b, id), s) ==> s in b.elements && b.elements[s].YMap? && Get(b.elements[s].fields, "isDeleted") != Bool(true)
    ensures id in ElementsPass(b, changed, lib).elements && ElementsPass(b, changed, lib).elements[id] == b.elements[id]
  {
    hide RefersTo, RefsOf, Repaired, Current;
    forall s | s in RefsOf(Current(b, id))
      ensures s !in RemovedAmong(b, changed)
    {
      RefsAre(Current(b, id), s);
    }
    if changed != {} {
      Unscoped(b, Some(LiveScope(b, changed)), NoDrop, lib, id);
    }
  }

  // ----- images -----

  /** An element that can be rendered goes in an event exactly when it is an image whose file the transaction deleted. */
  lemma LostImagesGo(b: Board, ev: Event, lib: IndexLibrary, id: string)
    requires id in Submitted(b, ev).elements && Renderable(Current(Submitted(b, ev), id))
    ensures id in Observed(b, ev, lib).elements <==>
            !(ev.Transaction? && Get(Current(ev.now, id), "type") == Str("image") && Get(Current(ev.now, id), "fileId").Str?
              && Get(Current(ev.now, id), "fileId").s in b.files && Get(Current(ev.now, id), "fileId").s !in ev.now.files)
  {
    RepairKeeps(b, ev, lib, id);
    NothingDeleted(b, id);
    hide Renderable, Current, Observed;
    if ev.Transaction? && LostItsFile(b, ev.now, id) {
      LostImageGoes(b, ev, lib, id);
    }
  }

  lemma LostImageGoes(b: Board, ev: Event, lib: IndexLibrary, id: string)
    requires ev.Transaction? && id in ev.now.elements && Renderable(Current(ev.now, id)) && LostItsFile(b, ev.now, id)
    ensures id !in Observed(b, ev, lib).elements
  {
    var deleted := DeletedFiles(b, ev.now);
    hide Renderable, Current, Repaired, Get, LiveScope;
    if ev.filesFirst {
      DropsLost(ev.now, deleted, lib, id);
      LivePassAddsNothing(FilesPass(ev.now, deleted, lib), ev.changed, lib);
    } else {
      ElementsPassKeeps(ev.now, ev.changed, lib, id);
      DropsLost(ElementsPass(ev.now, ev.changed, lib), deleted, lib, id);
    }
  }

  lemma LivePassAddsNothing(b: Board, changed: set<string>, lib: IndexLibrary)
    ensures ElementsPass(b, changed, lib).elements.Keys <= b.elements.Keys
  {
    hide Repaired, LiveScope;
    PassAddsNothing(b, Some(LiveScope(b, changed)), NoDrop, lib);
  }

  lemma DropsLost(b: Board, deleted: set<string>, lib: IndexLibrary, id: string)
    requires id in b.elements && Get(Current(b, id), "type") == Str("image") && Get(Current(b, id), "fileId").Str?
    requires Get(Current(b, id), "fileId").s in deleted && Get(Current(b, id), "fileId").s !in b.files
    ensures id !in FilesPass(b, deleted, lib).elements
  {
    hide Renderable, Current, Repaired, Get;
    PassElement(b, None, JustDeleted(deleted), lib, id);
  }
}
