/**
 * Edit batches of one shared map: validated as a whole, then applied in place.
 *
 * A batch lists own entries in order. Validation splits it into keys to delete and values to
 * store, or refuses all of it. Applying the parts is the same as entering the batch one entry
 * at a time (`BatchIsEntryByEntry`), keeps a valid map valid (`BatchKeepsValid`) and leaves
 * every key the batch does not name as it was.
 *
 * `CheckMap` is the validator of a whole stored map; what it keeps of a map is fixed by it.
 */
module SheetBatches {
  import opened Prelude
  import opened JsValues
  import opened Strings
  import opened SheetContracts

  datatype SheetError = BaseVersionStale | ProtectedRange(keys: seq<string>) | SnapshotInvalid | SchemaIncompatible

  /** The own entries of a batch object, in order; a null value asks for deletion. */
  type Entries = seq<(string, Val)>

  predicate IsDeletion(v: Val) {
    v == Null || v == Undefined
  }

  predicate EntryOk(surface: Surface, e: (string, Val)) {
    if IsDeletion(e.1) then ValidKey(surface, e.0) else Stored(surface, e.0, e.1).Some?
  }

  predicate BatchOk(surface: Surface, batch: Entries) {
    forall e :: e in batch ==> EntryOk(surface, e)
  }

  /** A batch split into deletions and values to store. */
  datatype Parts = Parts(toDelete: seq<string>, toSet: seq<(string, Val)>)

  function PartsOf(surface: Surface, batch: Entries): Parts {
    if batch == [] then Parts([], [])
    else
      var p, e := PartsOf(surface, batch[..|batch| - 1]), batch[|batch| - 1];
      if IsDeletion(e.1) then Parts(p.toDelete + [e.0], p.toSet)
      else if Stored(surface, e.0, e.1).Some? then Parts(p.toDelete, p.toSet + [(e.0, Stored(surface, e.0, e.1).value)])
      else p
  }

  function DeleteKeys(m: map<string, Val>, keys: seq<string>): map<string, Val> {
    if keys == [] then m else DeleteKeys(m, keys[..|keys| - 1]) - {keys[|keys| - 1]}
  }

  function SetKeys(m: map<string, Val>, entries: Entries): map<string, Val> {
    if entries == [] then m else SetKeys(m, entries[..|entries| - 1])[entries[|entries| - 1].0 := entries[|entries| - 1].1]
  }

  function Applied(m: map<string, Val>, p: Parts): map<string, Val> {
    SetKeys(DeleteKeys(m, p.toDelete), p.toSet)
  }

  // ----- the code -----

  method ValidateBatch(surface: Surface, batch: Entries) returns (r: Result<Parts, SheetError>)
    ensures r.Ok? <==> BatchOk(surface, batch)
    ensures r.Ok? ==> r.value == PartsOf(surface, batch)
    ensures r.Err? ==> r.error == SnapshotInvalid
  {
    hide Stored, ValidKey, EntryOk;
    var toDelete, toSet := [], [];
    for i := 0 to |batch|
      invariant forall j :: 0 <= j < i ==> EntryOk(surface, batch[j])
      invariant Parts(toDelete, toSet) == PartsOf(surface, batch[..i])
    {
      var e := batch[i];
      assert batch[..i + 1][..i] == batch[..i];
      EntryCases(surface, e);
      if IsDeletion(e.1) {
        if !ValidKey(surface, e.0) {
          return Err(SnapshotInvalid);
        }
        toDelete := toDelete + [e.0];
      } else {
        var kept := Stored(surface, e.0, e.1);
        if kept.None? {
          return Err(SnapshotInvalid);
        }
        toSet := toSet + [(e.0, kept.value)];
      }
    }
    assert batch[..|batch|] == batch;
    return Ok(Parts(toDelete, toSet));
  }

  lemma EntryCases(surface: Surface, e: (string, Val))
    ensures EntryOk(surface, e) <==> if IsDeletion(e.1) then ValidKey(surface, e.0) else Stored(surface, e.0, e.1).Some?
  {
  }

  /** A shared map; `added` counts the structs its sets created, deletions create none. */
  class SharedMap {
    var entries: map<string, Val>
    var added: nat

    constructor (initial: map<string, Val>)
      ensures entries == initial && added == 0
    {
      entries, added := initial, 0;
    }

    method Apply(p: Parts)
      modifies this
      ensures entries == Applied(old(entries), p)
      ensures added == old(added) + |p.toSet|
    {
      for i := 0 to |p.toDelete|
        invariant entries == DeleteKeys(old(entries), p.toDelete[..i]) && added == old(added)
      {
        assert p.toDelete[..i + 1][..i] == p.toDelete[..i];
        entries := entries - {p.toDelete[i]};
      }
      assert p.toDelete[..|p.toDelete|] == p.toDelete;
      for i := 0 to |p.toSet|
        invariant entries == SetKeys(DeleteKeys(old(entries), p.toDelete), p.toSet[..i]) && added == old(added) + i
      {
        assert p.toSet[..i + 1][..i] == p.toSet[..i];
        entries := entries[p.toSet[i].0 := p.toSet[i].1];
        added := added + 1;
      }
      assert p.toSet[..|p.toSet|] == p.toSet;
    }

    /** Validate all, then apply: the batch lands whole or not at all. */
    method ApplyBatch(surface: Surface, batch: Entries) returns (r: Result<nat, SheetError>)
      modifies this
      ensures r.Ok? <==> BatchOk(surface, batch)
      ensures r.Ok? ==> entries == Applied(old(entries), PartsOf(surface, batch))
      ensures r.Err? ==> entries == old(entries) && added == old(added) && r.error == SnapshotInvalid
    {
      var parts := ValidateBatch(surface, batch);
      if parts.Err? {
        return Err(parts.error);
      }
      Apply(parts.value);
      return Ok(|parts.value.toSet|);
    }
  }

  // ----- a batch is its entries, one by one -----

  /** One entry of a batch on its own: delete the key, or store what the contract keeps. */
  function Entered(surface: Surface, m: map<string, Val>, e: (string, Val)): map<string, Val> {
    if IsDeletion(e.1) then m - {e.0}
    else if Stored(surface, e.0, e.1).Some? then m[e.0 := Stored(surface, e.0, e.1).value]
    else m
  }

  function EnteredAll(surface: Surface, m: map<string, Val>, batch: Entries): map<string, Val> {
    if batch == [] then m else Entered(surface, EnteredAll(surface, m, batch[..|batch| - 1]), batch[|batch| - 1])
  }

  predicate DistinctKeys(batch: Entries) {
    forall i, j :: 0 <= i < j < |batch| ==> batch[i].0 != batch[j].0
  }

  lemma {:induction false} DeleteKeysIs(m: map<string, Val>, keys: seq<string>)
    ensures DeleteKeys(m, keys) == m - Elements(keys)
  {
    if keys != [] {
      assert keys == keys[..|keys| - 1] + [keys[|keys| - 1]];
      DeleteKeysIs(m, keys[..|keys| - 1]);
      ElementsSnoc(keys[..|keys| - 1], keys[|keys| - 1]);
      hide Elements;
    }
  }

  lemma {:induction false} SetKeysCommutes(m: map<string, Val>, entries: Entries, key: string)
    requires forall e :: e in entries ==> e.0 != key
    ensures SetKeys(m - {key}, entries) == SetKeys(m, entries) - {key}
  {
    if entries != [] {
      var front, last := entries[..|entries| - 1], entries[|entries| - 1];
      assert last in entries && forall e :: e in front ==> e in entries;
      SetKeysCommutes(m, front, key);
      hide SetKeys;
      DeleteThenSet(SetKeys(m, front), key, last.0, last.1);
    }
  }

  lemma DeleteThenSet(m: map<string, Val>, gone: string, key: string, v: Val)
    requires gone != key
    ensures (m - {gone})[key := v] == m[key := v] - {gone}
  {
  }

  lemma {:induction false} PartsKeys(surface: Surface, batch: Entries)
    ensures forall e :: e in PartsOf(surface, batch).toSet ==> exists b :: b in batch && b.0 == e.0
  {
    hide Stored;
    if batch != [] {
      PartsKeys(surface, batch[..|batch| - 1]);
      assert batch == batch[..|batch| - 1] + [batch[|batch| - 1]];
    }
  }

  /**
   * All deletions first and all values after is the same as entry by entry in the order of the
   * batch, because a batch names each key once.
   */
  lemma {:induction false} BatchIsEntryByEntry(surface: Surface, m: map<string, Val>, batch: Entries)
    requires DistinctKeys(batch)
    ensures Applied(m, PartsOf(surface, batch)) == EnteredAll(surface, m, batch)
  {
    if batch != [] {
      hide *;
      var front, last := batch[..|batch| - 1], batch[|batch| - 1];
      DistinctFront(batch);
      BatchIsEntryByEntry(surface, m, front);
      PartsStep(surface, m, front, last);
      LastEntered(surface, m, front, last);
    } else {
      hide Stored;
    }
  }

  lemma DistinctFront(batch: Entries)
    requires batch != [] && DistinctKeys(batch)
    ensures var front, last := batch[..|batch| - 1], batch[|batch| - 1];
            batch == front + [last] && DistinctKeys(front) && forall b :: b in front ==> b.0 != last.0
  {
  }

  lemma LastEntered(surface: Surface, m: map<string, Val>, front: Entries, last: (string, Val))
    ensures EnteredAll(surface, m, front + [last]) == Entered(surface, EnteredAll(surface, m, front), last)
  {
    hide Entered;
    assert (front + [last])[..|front + [last]| - 1] == front;
  }

  lemma PartsStep(surface: Surface, m: map<string, Val>, front: Entries, last: (string, Val))
    requires forall b :: b in front ==> b.0 != last.0
    ensures Applied(m, PartsOf(surface, front + [last])) == Entered(surface, Applied(m, PartsOf(surface, front)), last)
  {
    hide Stored;
    var p := PartsOf(surface, front);
    assert (front + [last])[..|front + [last]| - 1] == front;
    if IsDeletion(last.1) {
      PartsKeys(surface, front);
      assert (p.toDelete + [last.0])[..|p.toDelete|] == p.toDelete;
      hide PartsOf;
      SetKeysCommutes(DeleteKeys(m, p.toDelete), p.toSet, last.0);
    } else if Stored(surface, last.0, last.1).Some? {
      var e := (last.0, Stored(surface, last.0, last.1).value);
      assert (p.toSet + [e])[..|p.toSet|] == p.toSet;
    }
  }

  // ----- validity -----

  predicate ValidMap(surface: Surface, m: map<string, Val>) {
    forall key :: key in m ==> Stored(surface, key, m[key]).Some?
  }

  /** What the contracts keep of a whole map. */
  function KeptMap(surface: Surface, m: map<string, Val>): map<string, Val>
    requires ValidMap(surface, m)
  {
    map key | key in m :: Stored(surface, key, m[key]).value
  }

  /** Reading a map through its contract: the kept copy, or a refusal of the whole map. */
  method CheckMap(surface: Surface, m: map<string, Val>) returns (r: Result<map<string, Val>, SheetError>)
    ensures r.Ok? <==> ValidMap(surface, m)
    ensures r.Ok? ==> r.value == KeptMap(surface, m)
    ensures r.Err? ==> r.error == SnapshotInvalid
  {
    hide Stored, Elements, Distinct;
    var keys := Enumerate(m.Keys);
    MembersOf(keys);
    var kept: map<string, Val> := map[];
    NoElements([]);
    for i := 0 to |keys|
      invariant kept.Keys == Elements(keys[..i])
      invariant forall key :: key in kept ==> key in m && Stored(surface, key, m[key]) == Some(kept[key])
    {
      assert keys[..i + 1] == keys[..i] + [keys[i]];
      ElementsSnoc(keys[..i], keys[i]);
      assert keys[i] in m.Keys;
      var v := Stored(surface, keys[i], m[keys[i]]);
      if v.None? {
        return Err(SnapshotInvalid);
      }
      kept := kept[keys[i] := v.value];
    }
    assert keys[..|keys|] == keys;
    return Ok(kept);
  }

  lemma MembersOf(keys: seq<string>)
    ensures forall key :: key in keys <==> key in Elements(keys)
  {
  }

  /** The kept copy is valid, and is its own kept copy. */
  lemma KeptIsStable(surface: Surface, m: map<string, Val>)
    requires ValidMap(surface, m)
    ensures ValidMap(surface, KeptMap(surface, m)) && KeptMap(surface, KeptMap(surface, m)) == KeptMap(surface, m)
  {
    hide Stored;
    var kept := KeptMap(surface, m);
    forall key | key in m
      ensures kept[key] == Stored(surface, key, m[key]).value && Stored(surface, key, kept[key]) == Some(kept[key])
    {
      StoredIsStable(surface, key, m[key]);
    }
    assert kept.Keys == m.Keys;
    FixedByContract(surface, kept);
  }

  lemma FixedByContract(surface: Surface, m: map<string, Val>)
    requires forall key :: key in m ==> Stored(surface, key, m[key]) == Some(m[key])
    ensures ValidMap(surface, m) && KeptMap(surface, m) == m
  {
    hide Stored;
  }

  lemma {:induction false} SetKeepsValid(surface: Surface, m: map<string, Val>, entries: Entries, aside: set<string>)
    requires ValidMap(surface, m - aside) && forall e :: e in entries ==> Stored(surface, e.0, e.1).Some?
    ensures ValidMap(surface, SetKeys(m, entries) - aside)
  {
    hide Stored;
    if entries != [] {
      assert entries[|entries| - 1] in entries && forall e :: e in entries[..|entries| - 1] ==> e in entries;
      SetKeepsValid(surface, m, entries[..|entries| - 1], aside);
      SetAside(SetKeys(m, entries[..|entries| - 1]), entries[|entries| - 1].0, entries[|entries| - 1].1, aside);
    }
  }

  lemma SetAside(m: map<string, Val>, key: string, v: Val, aside: set<string>)
    ensures m[key := v] - aside == if key in aside then m - aside else (m - aside)[key := v]
  {
  }

  lemma {:induction false} PartsAreStable(surface: Surface, batch: Entries)
    ensures forall e :: e in PartsOf(surface, batch).toSet ==> Stored(surface, e.0, e.1) == Some(e.1)
  {
    hide Stored;
    if batch != [] {
      PartsAreStable(surface, batch[..|batch| - 1]);
      var last := batch[|batch| - 1];
      if Stored(surface, last.0, last.1).Some? {
        StoredIsStable(surface, last.0, last.1);
      }
    }
  }

  lemma PartIsValid(surface: Surface, m: map<string, Val>, part: map<string, Val>)
    requires ValidMap(surface, m) && forall key :: key in part ==> key in m && part[key] == m[key]
    ensures ValidMap(surface, part)
  {
    hide Stored;
  }

  /** Applying any batch to a map that is valid, some keys set aside, leaves it so. */
  lemma BatchKeepsRest(surface: Surface, m: map<string, Val>, batch: Entries, aside: set<string>)
    requires ValidMap(surface, m - aside)
    ensures ValidMap(surface, Applied(m, PartsOf(surface, batch)) - aside)
  {
    var p := PartsOf(surface, batch);
    PartsAreStable(surface, batch);
    DeleteKeysIs(m, p.toDelete);
    hide PartsOf, Stored, DeleteKeys, Elements;
    PartIsValid(surface, m - aside, DeleteKeys(m, p.toDelete) - aside);
    SetKeepsValid(surface, DeleteKeys(m, p.toDelete), p.toSet, aside);
  }

  /** Applying any batch to a valid map leaves it valid. */
  lemma BatchKeepsValid(surface: Surface, m: map<string, Val>, batch: Entries)
    requires ValidMap(surface, m)
    ensures ValidMap(surface, Applied(m, PartsOf(surface, batch)))
  {
    var after := Applied(m, PartsOf(surface, batch));
    assert m - {} == m && after - {} == after;
    hide PartsOf, Applied, ValidMap;
    BatchKeepsRest(surface, m, batch, {});
  }

  lemma {:induction false} SetKeysElsewhere(m: map<string, Val>, entries: Entries, key: string)
    requires forall e :: e in entries ==> e.0 != key
    ensures key in SetKeys(m, entries) <==> key in m
    ensures key in m ==> SetKeys(m, entries)[key] == m[key]
  {
    if entries != [] {
      assert entries[|entries| - 1] in entries && forall e :: e in entries[..|entries| - 1] ==> e in entries;
      SetKeysElsewhere(m, entries[..|entries| - 1], key);
    }
  }

  lemma {:induction false} PartsDeletions(surface: Surface, batch: Entries)
    ensures forall key :: key in PartsOf(surface, batch).toDelete ==> exists b :: b in batch && b.0 == key
  {
    hide Stored;
    if batch != [] {
      PartsDeletions(surface, batch[..|batch| - 1]);
      assert batch == batch[..|batch| - 1] + [batch[|batch| - 1]];
    }
  }

  /** A key the batch does not name keeps its value. */
  lemma UnnamedStays(surface: Surface, m: map<string, Val>, batch: Entries, key: string)
    requires forall e :: e in batch ==> e.0 != key
    ensures key in Applied(m, PartsOf(surface, batch)) <==> key in m
    ensures key in m ==> Applied(m, PartsOf(surface, batch))[key] == m[key]
  {
    var p := PartsOf(surface, batch);
    PartsKeys(surface, batch);
    PartsDeletions(surface, batch);
    DeleteKeysIs(m, p.toDelete);
    hide PartsOf, DeleteKeys, SetKeys;
    SetKeysElsewhere(DeleteKeys(m, p.toDelete), p.toSet, key);
  }

  // ----- what a batch and a whole map leave -----

  /**
   * After a batch each key it names with a value holds that value, each key it names with null
   * is absent, and every other key is as before.
   */
  ghost predicate Lands(surface: Surface, before: map<string, Val>, batch: Entries, after: map<string, Val>) {
    && (forall e :: e in batch && !e.1.Null? && !e.1.Undefined? ==> e.0 in after && KeptAs(surface, e.1, after[e.0]))
    && (forall e :: e in batch && (e.1.Null? || e.1.Undefined?) ==> e.0 !in after)
    && (forall key :: (forall e :: e in batch ==> e.0 != key) ==> SameAt(before, after, key))
  }

  predicate SameAt(before: map<string, Val>, after: map<string, Val>, key: string) {
    (key in after <==> key in before) && (key in before ==> after[key] == before[key])
  }

  lemma EnteredLands(surface: Surface, m: map<string, Val>, e: (string, Val), key: string)
    requires EntryOk(surface, e)
    ensures key != e.0 ==> SameAt(m, Entered(surface, m, e), key)
    ensures e.1.Null? || e.1.Undefined? ==> e.0 !in Entered(surface, m, e)
    ensures !e.1.Null? && !e.1.Undefined? ==> e.0 in Entered(surface, m, e) && KeptAs(surface, e.1, Entered(surface, m, e)[e.0])
  {
    EnteredIs(surface, m, e);
    if key != e.0 {
      Elsewhere(m, key, e.0, if IsDeletion(e.1) then Null else Stored(surface, e.0, e.1).value);
    }
    if !IsDeletion(e.1) {
      StoredIsKept(surface, e.0, e.1);
    }
    hide *;
  }

  lemma EnteredIs(surface: Surface, m: map<string, Val>, e: (string, Val))
    requires EntryOk(surface, e)
    ensures IsDeletion(e.1) <==> e.1.Null? || e.1.Undefined?
    ensures IsDeletion(e.1) ==> Entered(surface, m, e) == m - {e.0}
    ensures !IsDeletion(e.1) ==> Stored(surface, e.0, e.1).Some? && Entered(surface, m, e) == m[e.0 := Stored(surface, e.0, e.1).value]
  {
    hide Stored, ValidKey;
  }

  lemma Elsewhere(m: map<string, Val>, key: string, other: string, v: Val)
    requires key != other
    ensures SameAt(m, m - {other}, key) && SameAt(m, m[other := v], key)
  {
  }

  lemma {:induction false} EachLands(surface: Surface, m: map<string, Val>, batch: Entries)
    requires BatchOk(surface, batch) && DistinctKeys(batch)
    ensures Lands(surface, m, batch, EnteredAll(surface, m, batch))
  {
    hide EntryOk, Entered, KeptAs;
    if batch != [] {
      var front, last := batch[..|batch| - 1], batch[|batch| - 1];
      DistinctFront(batch);
      EachLands(surface, m, front);
      var before, after := EnteredAll(surface, m, front), EnteredAll(surface, m, batch);
      assert after == Entered(surface, before, last);
      forall key
        ensures key != last.0 ==> SameAt(before, after, key)
      {
        EnteredLands(surface, before, last, key);
      }
      EnteredLands(surface, before, last, last.0);
      hide EnteredAll;
      LandsSnoc(surface, m, front, last, before, after);
    }
  }

  lemma LandsSnoc(surface: Surface, m: map<string, Val>, front: Entries, last: (string, Val), before: map<string, Val>, after: map<string, Val>)
    requires Lands(surface, m, front, before) && forall e :: e in front ==> e.0 != last.0
    requires forall key :: key != last.0 ==> SameAt(before, after, key)
    requires last.1.Null? || last.1.Undefined? ==> last.0 !in after
    requires !last.1.Null? && !last.1.Undefined? ==> last.0 in after && KeptAs(surface, last.1, after[last.0])
    ensures Lands(surface, m, front + [last], after)
  {
    hide KeptAs;
    var batch := front + [last];
    forall e | e in batch
      ensures !e.1.Null? && !e.1.Undefined? ==> e.0 in after && KeptAs(surface, e.1, after[e.0])
      ensures e.1.Null? || e.1.Undefined? ==> e.0 !in after
    {
      if e != last {
        assert e in front && SameAt(before, after, e.0);
      }
    }
    assert last in batch && forall e :: e in front ==> e in batch;
    forall key | forall e :: e in batch ==> e.0 != key
      ensures SameAt(m, after, key)
    {
      assert key != last.0 && SameAt(m, before, key) && SameAt(before, after, key);
    }
  }

  /** An accepted batch lands as it is written. */
  lemma BatchLands(surface: Surface, m: map<string, Val>, batch: Entries)
    requires BatchOk(surface, batch) && DistinctKeys(batch)
    ensures Lands(surface, m, batch, Applied(m, PartsOf(surface, batch)))
  {
    BatchIsEntryByEntry(surface, m, batch);
    EachLands(surface, m, batch);
    hide *;
  }

  /** The same keys, each with the value kept. */
  ghost predicate Copied(surface: Surface, target: map<string, Val>, copy: map<string, Val>) {
    copy.Keys == target.Keys && forall key :: key in target ==> KeptAs(surface, target[key], copy[key])
  }

  lemma KeptIsCopied(surface: Surface, m: map<string, Val>)
    requires ValidMap(surface, m)
    ensures Copied(surface, m, KeptMap(surface, m))
  {
    hide Stored, KeptAs;
    forall key | key in m
      ensures KeptAs(surface, m[key], KeptMap(surface, m)[key])
    {
      StoredIsKept(surface, key, m[key]);
    }
  }

  /** The places of a batch that hold a value. */
  function ValuePlaces(batch: Entries): set<nat> {
    set i: nat | i < |batch| && !batch[i].1.Null? && !batch[i].1.Undefined?
  }

  lemma {:induction false} PartsCount(surface: Surface, batch: Entries)
    requires BatchOk(surface, batch)
    ensures |PartsOf(surface, batch).toSet| == |ValuePlaces(batch)|
  {
    hide Stored, ValidKey;
    if batch != [] {
      var n := |batch| - 1;
      PartsCount(surface, batch[..n]);
      PlacesStep(batch, n);
      assert EntryOk(surface, batch[n]);
      hide ValuePlaces;
    }
  }

  lemma PlacesStep(batch: Entries, n: nat)
    requires n == |batch| - 1
    ensures |ValuePlaces(batch)| == |ValuePlaces(batch[..n])| + if batch[n].1.Null? || batch[n].1.Undefined? then 0 else 1
  {
    assert forall i: nat :: i < n ==> batch[..n][i] == batch[i];
    assert ValuePlaces(batch) == ValuePlaces(batch[..n]) + if batch[n].1.Null? || batch[n].1.Undefined? then {} else {n};
  }
}
