/**
 * The contracts of the six shared sheet maps: which keys and values each accepts, what it
 * stores of an accepted value, and how an edit batch is split and validated.
 */
module SheetContracts {
  import opened Prelude
  import opened JsValues
  import opened Strings
  import opened SheetKeys
  import GuardSpec

  datatype Surface = Cells | Dims | Drawings | Links | Merges | Tabs

  const MAX_DIM_PX: real := 100000.0

  // ----- keys -----

  predicate IdChar(c: char) {
    'A' <= c <= 'Z' || 'a' <= c <= 'z' || '0' <= c <= '9' || c == '_' || c == '-'
  }

  predicate IdKey(key: string) {
    var bang := IndexOf(key, '!');
    && 1 <= bang <= 64
    && 1 <= |key| - bang - 1 <= 64
    && forall i :: bang < i < |key| ==> IdChar(key[i])
  }

  predicate ValidKey(surface: Surface, key: string) {
    match surface
    case Cells => ValidCellKey(key)
    case Dims => ValidDimKey(key)
    case Drawings => IdKey(key)
    case Links => IdKey(key)
    case Merges => ValidMergeKey(key)
    case Tabs => ValidTabKey(key)
  }

  // ----- values -----

  function Lookup(v: Val, name: string): Val {
    GuardSpec.FieldVal(v, name)
  }

  predicate CellFieldOk(name: string, v: Val) {
    if name == "v" then v.Null? || v.Str? || v.Num? || v.Bool?
    else if name == "f" then v.Str?
    else if name == "s" || name == "p" then v.Obj?
    else name == "t" && v.Num?
  }

  /** Plain objects with distinct field names, as a parser of JSON yields them. */
  predicate DistinctFields(fields: seq<Field>) {
    forall i, j :: 0 <= i < j < |fields| ==> fields[i].name != fields[j].name
  }

  predicate CellOk(v: Val) {
    v.Obj? && v.fields != [] && DistinctFields(v.fields) && forall f :: f in v.fields ==> CellFieldOk(f.name, f.value)
  }

  /** The field of that name, if there is one. */
  function Picked(fields: seq<Field>, name: string): seq<Field> {
    if fields == [] then []
    else if fields[0].name == name then [fields[0]]
    else Picked(fields[1..], name)
  }

  /** A stored cell lists its fields in one fixed order. */
  function KeptCell(fields: seq<Field>): seq<Field> {
    Picked(fields, "v") + Picked(fields, "f") + Picked(fields, "s") + Picked(fields, "p") + Picked(fields, "t")
  }

  function Lower(c: char): char {
    if 'A' <= c <= 'Z' then (c as int + 32) as char else c
  }

  predicate StartsWithAnyCase(s: string, prefix: string) {
    |prefix| <= |s| && forall i :: 0 <= i < |prefix| ==> Lower(s[i]) == prefix[i]
  }

  predicate SafePayload(s: string) {
    s != "" && (s[0] == '#' || StartsWithAnyCase(s, "http:") || StartsWithAnyCase(s, "https:") || StartsWithAnyCase(s, "mailto:"))
  }

  predicate CountingNumber(v: Val) {
    IsInteger(v) && v.n >= 0.0
  }

  predicate LinkOk(key: string, v: Val) {
    && v.Obj?
    && Lookup(v, "id") == Str(key[IndexOf(key, '!') + 1..])
    && CountingNumber(Lookup(v, "row")) && CountingNumber(Lookup(v, "column"))
    && Lookup(v, "payload").Str? && SafePayload(Lookup(v, "payload").s)
    && (Lookup(v, "display").Undefined? || Lookup(v, "display").Str?)
  }

  predicate OrderedCorners(key: string) {
    var parts := Split(key, ':');
    |parts| == 5 && (forall i :: 1 <= i < 5 ==> Digits(parts[i])) && Value(parts[1]) <= Value(parts[3]) && Value(parts[2]) <= Value(parts[4])
  }

  predicate ValueOk(surface: Surface, key: string, v: Val) {
    match surface
    case Cells => CellOk(v)
    case Dims => v.Num? && 0.0 < v.n <= MAX_DIM_PX
    case Drawings => v.Obj? && Lookup(v, "drawingId") == Str(key[IndexOf(key, '!') + 1..])
    case Links => LinkOk(key, v)
    case Merges => v == Bool(true) && OrderedCorners(key)
    case Tabs => v.Obj? && Lookup(v, "name").Str? && Lookup(v, "name").s != "" && Lookup(v, "order").Num?
  }

  /** What the map stores for an accepted entry; nothing when the entry is refused. */
  function Stored(surface: Surface, key: string, v: Val): Option<Val> {
    if !ValidKey(surface, key) || !ValueOk(surface, key, v) then None
    else if surface == Cells then Some(Obj(KeptCell(v.fields)))
    else Some(v)
  }

  // ----- what is stored is accepted again -----

  lemma {:induction false} PickedIs(fields: seq<Field>, name: string)
    ensures |Picked(fields, name)| <= 1
    ensures forall f :: f in Picked(fields, name) ==> f in fields && f.name == name
    ensures Picked(fields, name) == [] <==> forall f :: f in fields ==> f.name != name
  {
    if fields != [] {
      PickedIs(fields[1..], name);
      assert fields == [fields[0]] + fields[1..];
      assert fields[0] in fields && forall f :: f in fields[1..] ==> f in fields;
    }
  }

  lemma {:induction false} PickedOfConcat(xs: seq<Field>, ys: seq<Field>, name: string)
    ensures Picked(xs + ys, name) == if Picked(xs, name) != [] then Picked(xs, name) else Picked(ys, name)
  {
    if xs == [] {
      assert xs + ys == ys;
    } else {
      assert (xs + ys)[1..] == xs[1..] + ys;
      PickedOfConcat(xs[1..], ys, name);
    }
  }

  lemma PickedTwice(fields: seq<Field>, name: string, other: string)
    ensures Picked(Picked(fields, name), other) == if name == other then Picked(fields, name) else []
  {
    PickedIs(fields, name);
    var picked := Picked(fields, name);
    if picked != [] {
      assert picked == [picked[0]] && picked[0] in picked;
    }
  }

  /** The kept cell has, under each of the five names, the field the value had. */
  lemma KeptPicks(fields: seq<Field>, name: string)
    ensures name in ["v", "f", "s", "p", "t"] ==> Picked(KeptCell(fields), name) == Picked(fields, name)
    ensures name !in ["v", "f", "s", "p", "t"] ==> Picked(KeptCell(fields), name) == []
  {
    hide Picked;
    var v, f, s, p, t := Picked(fields, "v"), Picked(fields, "f"), Picked(fields, "s"), Picked(fields, "p"), Picked(fields, "t");
    PickedTwice(fields, "v", name);
    PickedTwice(fields, "f", name);
    PickedTwice(fields, "s", name);
    PickedTwice(fields, "p", name);
    PickedTwice(fields, "t", name);
    PickedOfConcat(v + f + s + p, t, name);
    PickedOfConcat(v + f + s, p, name);
    PickedOfConcat(v + f, s, name);
    PickedOfConcat(v, f, name);
  }

  lemma KeptTwice(fields: seq<Field>)
    ensures KeptCell(KeptCell(fields)) == KeptCell(fields)
  {
    KeptPicks(fields, "v");
    KeptPicks(fields, "f");
    KeptPicks(fields, "s");
    KeptPicks(fields, "p");
    KeptPicks(fields, "t");
    hide Picked;
  }

  lemma {:induction false} PickedFinds(fields: seq<Field>, f: Field)
    requires f in fields && DistinctFields(fields)
    ensures Picked(fields, f.name) == [f]
  {
    assert fields == [fields[0]] + fields[1..];
    if fields[0].name != f.name {
      assert f in fields[1..];
      PickedFinds(fields[1..], f);
    } else {
      var i :| 0 <= i < |fields| && fields[i] == f;
    }
  }

  /** A kept cell has exactly the fields of the value, each once. */
  lemma KeptSameFields(fields: seq<Field>)
    requires CellOk(Obj(fields))
    ensures forall f :: f in KeptCell(fields) <==> f in fields
    ensures DistinctFields(KeptCell(fields)) && KeptCell(fields) != []
  {
    forall f
      ensures f in KeptCell(fields) <==> f in fields
    {
      KeptMember(fields, f);
    }
    KeptDistinct(fields);
    assert fields[0] in fields;
    hide KeptCell;
  }

  lemma KeptMember(fields: seq<Field>, f: Field)
    requires CellOk(Obj(fields))
    ensures f in KeptCell(fields) <==> f in fields
  {
    PickedIs(fields, "v");
    PickedIs(fields, "f");
    PickedIs(fields, "s");
    PickedIs(fields, "p");
    PickedIs(fields, "t");
    if f in fields {
      PickedFinds(fields, f);
      assert f in Picked(fields, f.name);
      assert CellFieldOk(f.name, f.value);
    }
    hide Picked, DistinctFields;
  }

  lemma KeptDistinct(fields: seq<Field>)
    ensures DistinctFields(KeptCell(fields))
  {
    PickedIs(fields, "v");
    PickedIs(fields, "f");
    PickedIs(fields, "s");
    PickedIs(fields, "p");
    PickedIs(fields, "t");
    hide Picked;
    AppendDistinct(Picked(fields, "v"), Picked(fields, "f"), "f");
    AppendDistinct(Picked(fields, "v") + Picked(fields, "f"), Picked(fields, "s"), "s");
    AppendDistinct(Picked(fields, "v") + Picked(fields, "f") + Picked(fields, "s"), Picked(fields, "p"), "p");
    AppendDistinct(Picked(fields, "v") + Picked(fields, "f") + Picked(fields, "s") + Picked(fields, "p"), Picked(fields, "t"), "t");
  }

  lemma AppendDistinct(xs: seq<Field>, ys: seq<Field>, name: string)
    requires DistinctFields(xs) && |ys| <= 1
    requires forall f :: f in ys ==> f.name == name
    requires forall f :: f in xs ==> f.name != name
    ensures DistinctFields(xs + ys)
  {
    if ys != [] {
      assert ys == [ys[0]] && ys[0] in ys;
      assert forall i :: 0 <= i < |xs| ==> xs[i] in xs;
    }
  }

  /** Whatever an accepted entry stores is accepted again, and stored as it is. */
  lemma StoredIsStable(surface: Surface, key: string, v: Val)
    requires Stored(surface, key, v).Some?
    ensures Stored(surface, key, Stored(surface, key, v).value) == Stored(surface, key, v)
  {
    if surface == Cells {
      KeptSameFields(v.fields);
      KeptTwice(v.fields);
      hide KeptCell, CellFieldOk, DistinctFields, ValidKey;
      assert CellOk(Obj(KeptCell(v.fields)));
    }
  }

  /** The place of a field in a stored cell. */
  function Place(name: string): nat {
    if name == "v" then 0 else if name == "f" then 1 else if name == "s" then 2 else if name == "p" then 3 else 4
  }

  predicate InPlace(fields: seq<Field>) {
    forall i, j :: 0 <= i < j < |fields| ==> Place(fields[i].name) < Place(fields[j].name)
  }

  lemma AppendInPlace(xs: seq<Field>, ys: seq<Field>, n: nat)
    requires InPlace(xs) && |ys| <= 1
    requires (forall f :: f in xs ==> Place(f.name) < n) && forall f :: f in ys ==> Place(f.name) == n
    ensures InPlace(xs + ys) && forall f :: f in xs + ys ==> Place(f.name) < n + 1
  {
    hide Place;
    forall i, j | 0 <= i < j < |xs + ys|
      ensures Place((xs + ys)[i].name) < Place((xs + ys)[j].name)
    {
      assert i < |xs| && (xs + ys)[i] in xs;
      assert j >= |xs| ==> (xs + ys)[j] == ys[0] && ys[0] in ys;
    }
  }

  lemma PickedPlace(fields: seq<Field>, name: string, n: nat)
    requires Place(name) == n
    ensures |Picked(fields, name)| <= 1 && forall f :: f in Picked(fields, name) ==> Place(f.name) == n
  {
    PickedIs(fields, name);
    hide Picked, Place;
  }

  /** The fields of a stored cell come in the order `v`, `f`, `s`, `p`, `t`. */
  lemma KeptInPlace(fields: seq<Field>)
    ensures InPlace(KeptCell(fields))
  {
    assert Place("v") == 0 && Place("f") == 1 && Place("s") == 2 && Place("p") == 3 && Place("t") == 4;
    var v, f, s, p, t := Picked(fields, "v"), Picked(fields, "f"), Picked(fields, "s"), Picked(fields, "p"), Picked(fields, "t");
    hide Picked, Place, InPlace;
    PickedPlace(fields, "v", 0);
    PickedPlace(fields, "f", 1);
    PickedPlace(fields, "s", 2);
    PickedPlace(fields, "p", 3);
    PickedPlace(fields, "t", 4);
    assert [] + v == v && InPlace([]) by {
      NothingInPlace();
    }
    AppendInPlace([], v, 0);
    AppendInPlace(v, f, 1);
    AppendInPlace(v + f, s, 2);
    AppendInPlace(v + f + s, p, 3);
    AppendInPlace(v + f + s + p, t, 4);
  }

  lemma NothingInPlace()
    ensures InPlace([])
  {
  }

  /**
   * What is kept of an accepted value: the value itself, and of a cell an object with exactly its
   * fields, in the order `v`, `f`, `s`, `p`, `t`.
   */
  ghost predicate KeptAs(surface: Surface, v: Val, kept: Val) {
    if surface == Cells then
      && v.Obj? && kept.Obj? && DistinctFields(kept.fields) && InPlace(kept.fields)
      && forall f :: f in kept.fields <==> f in v.fields
    else kept == v
  }

  lemma StoredIsKept(surface: Surface, key: string, v: Val)
    requires Stored(surface, key, v).Some?
    ensures KeptAs(surface, v, Stored(surface, key, v).value)
  {
    if surface == Cells {
      KeptSameFields(v.fields);
      KeptInPlace(v.fields);
      hide KeptCell, ValidKey, DistinctFields, InPlace;
    }
  }
}
