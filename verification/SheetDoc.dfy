/**
 * The live spreadsheet document: the guarded commit over six shared maps, the pre-flight
 * measurement that predicts it, and the restore of a version onto it.
 */
module SheetDoc {
  import opened Prelude
  import opened JsValues
  import opened Strings
  import opened SheetKeys
  import opened SheetContracts
  import opened SheetBatches
  import opened StateVectors
  import GuardSpec
  import SheetGuard
  import GuardLaws
  import DocTree

  /** The contents of the six maps. */
  datatype Maps = Maps(cells: map<string, Val>, dims: map<string, Val>, drawings: map<string, Val>,
                       links: map<string, Val>, merges: map<string, Val>, tabs: map<string, Val>)

  datatype Batches = Batches(cells: Entries, dims: Entries, drawings: Entries, links: Entries, merges: Entries, tabs: Entries)

  datatype AllParts = AllParts(cells: Parts, dims: Parts, drawings: Parts, links: Parts, merges: Parts, tabs: Parts)

  predicate AllOk(b: Batches) {
    && BatchOk(Cells, b.cells) && BatchOk(Dims, b.dims) && BatchOk(Drawings, b.drawings)
    && BatchOk(Links, b.links) && BatchOk(SheetContracts.Merges, b.merges) && BatchOk(Tabs, b.tabs)
  }

  function AllPartsOf(b: Batches): AllParts {
    AllParts(PartsOf(Cells, b.cells), PartsOf(Dims, b.dims), PartsOf(Drawings, b.drawings),
             PartsOf(Links, b.links), PartsOf(SheetContracts.Merges, b.merges), PartsOf(Tabs, b.tabs))
  }

  function AllApplied(m: Maps, p: AllParts): Maps {
    Maps(Applied(m.cells, p.cells), Applied(m.dims, p.dims), Applied(m.drawings, p.drawings),
         Applied(m.links, p.links), Applied(m.merges, p.merges), Applied(m.tabs, p.tabs))
  }

  /** The structs a batch adds: one per stored value. */
  function Added(p: AllParts): nat {
    |p.cells.toSet| + |p.dims.toSet| + |p.drawings.toSet| + |p.links.toSet| + |p.merges.toSet| + |p.tabs.toSet|
  }

  predicate AllValid(m: Maps) {
    && ValidMap(Cells, m.cells) && ValidMap(Dims, m.dims) && ValidMap(Drawings, m.drawings)
    && ValidMap(Links, m.links) && ValidMap(SheetContracts.Merges, m.merges) && ValidMap(Tabs, m.tabs)
  }

  /** The contracts of the maps that a read serves; drawings are not among them. */
  predicate Readable(m: Maps) {
    && ValidMap(Cells, m.cells) && ValidMap(Dims, m.dims) && ValidMap(Links, m.links)
    && ValidMap(SheetContracts.Merges, m.merges) && ValidMap(Tabs, m.tabs)
  }

  function AllKept(m: Maps): Maps
    requires AllValid(m)
  {
    Maps(KeptMap(Cells, m.cells), KeptMap(Dims, m.dims), KeptMap(Drawings, m.drawings),
         KeptMap(Links, m.links), KeptMap(SheetContracts.Merges, m.merges), KeptMap(Tabs, m.tabs))
  }

  function Size(m: Maps): nat {
    |m.cells| + |m.dims| + |m.drawings| + |m.links| + |m.merges| + |m.tabs|
  }

  const EMPTY: Maps := Maps(map[], map[], map[], map[], map[], map[])

  function Keys(batch: Entries): seq<string> {
    if batch == [] then [] else Keys(batch[..|batch| - 1]) + [batch[|batch| - 1].0]
  }

  /** The keys the protection guard looks at. */
  function GuardedKeys(b: Batches): SheetGuard.Batch {
    SheetGuard.Batch(Keys(b.cells), Keys(b.dims), Keys(b.merges), Keys(b.tabs))
  }

  /** Each batch names a key at most once, as an object does. */
  predicate AllDistinct(b: Batches) {
    && DistinctKeys(b.cells) && DistinctKeys(b.dims) && DistinctKeys(b.drawings)
    && DistinctKeys(b.links) && DistinctKeys(b.merges) && DistinctKeys(b.tabs)
  }

  /** All six batches have landed in their own maps. */
  ghost predicate AllLand(before: Maps, b: Batches, after: Maps) {
    && Lands(Cells, before.cells, b.cells, after.cells)
    && Lands(Dims, before.dims, b.dims, after.dims)
    && Lands(Drawings, before.drawings, b.drawings, after.drawings)
    && Lands(Links, before.links, b.links, after.links)
    && Lands(SheetContracts.Merges, before.merges, b.merges, after.merges)
    && Lands(Tabs, before.tabs, b.tabs, after.tabs)
  }

  ghost predicate AllCopied(target: Maps, copy: Maps) {
    && Copied(Cells, target.cells, copy.cells)
    && Copied(Dims, target.dims, copy.dims)
    && Copied(Drawings, target.drawings, copy.drawings)
    && Copied(Links, target.links, copy.links)
    && Copied(SheetContracts.Merges, target.merges, copy.merges)
    && Copied(Tabs, target.tabs, copy.tabs)
  }

  /** The number of values that the batches hold. */
  function ValueCount(b: Batches): nat {
    |ValuePlaces(b.cells)| + |ValuePlaces(b.dims)| + |ValuePlaces(b.drawings)| + |ValuePlaces(b.links)| + |ValuePlaces(b.merges)| + |ValuePlaces(b.tabs)|
  }

  /** An accepted commit lands, with one struct for each value. */
  lemma AcceptedLands(m: Maps, b: Batches)
    requires AllOk(b)
    ensures AllDistinct(b) ==> AllLand(m, b, AllApplied(m, AllPartsOf(b)))
    ensures Added(AllPartsOf(b)) == ValueCount(b)
  {
    hide BatchOk, PartsOf, Applied, DistinctKeys, Lands, ValuePlaces;
    PartsCount(Cells, b.cells);
    PartsCount(Dims, b.dims);
    PartsCount(Drawings, b.drawings);
    PartsCount(Links, b.links);
    PartsCount(SheetContracts.Merges, b.merges);
    PartsCount(Tabs, b.tabs);
    if AllDistinct(b) {
      BatchLands(Cells, m.cells, b.cells);
      BatchLands(Dims, m.dims, b.dims);
      BatchLands(Drawings, m.drawings, b.drawings);
      BatchLands(Links, m.links, b.links);
      BatchLands(SheetContracts.Merges, m.merges, b.merges);
      BatchLands(Tabs, m.tabs, b.tabs);
    }
  }

  lemma KeptAreCopied(m: Maps)
    requires AllValid(m)
    ensures AllCopied(m, AllKept(m))
  {
    hide ValidMap, KeptMap, Copied;
    KeptIsCopied(Cells, m.cells);
    KeptIsCopied(Dims, m.dims);
    KeptIsCopied(Drawings, m.drawings);
    KeptIsCopied(Links, m.links);
    KeptIsCopied(SheetContracts.Merges, m.merges);
    KeptIsCopied(Tabs, m.tabs);
  }

  function FirstFive(keys: seq<string>): seq<string> {
    if |keys| <= 5 then keys else keys[..5]
  }

  /** What the specification of protection refuses of a batch. */
  ghost function Forbidden(rules: map<string, Val>, grants: map<string, Val>, b: Batches, uid: string, number: NumberReader): seq<string> {
    SheetGuard.RefusedKeys(SheetGuard.Targets(GuardedKeys(b), number), rules, grants, uid)
  }

  /** What a commit that passed its guards leaves: nothing unless all six contracts hold. */
  function Committed(m: Maps, b: Batches): Option<Maps> {
    if AllOk(b) then Some(AllApplied(m, AllPartsOf(b))) else None
  }

  /** Under this name a plain object takes a value for its prototype and lists no entry. */
  const PROTO: set<string> := {"__proto__"}

  /** What the read check of the pre-flight sees of the maps, which it first copies into plain objects. */
  function Listed(m: Maps): Maps {
    Maps(m.cells - PROTO, m.dims - PROTO, m.drawings - PROTO, m.links - PROTO, m.merges - PROTO, m.tabs - PROTO)
  }

  /** The read path accepts the sheet. It copies three of the maps into plain objects. */
  predicate Served(m: Maps) {
    Readable(Maps(m.cells - PROTO, m.dims - PROTO, m.drawings, m.links - PROTO, m.merges, m.tabs))
  }

  /** What the pre-flight predicts: besides, the result must pass the read check. */
  function Measured(m: Maps, b: Batches): Option<Maps> {
    if AllOk(b) && Readable(Listed(AllApplied(m, AllPartsOf(b)))) then Some(AllApplied(m, AllPartsOf(b))) else None
  }

  lemma {:induction false} KeysInOrder(batch: Entries)
    ensures |Keys(batch)| == |batch| && forall i :: 0 <= i < |batch| ==> Keys(batch)[i] == batch[i].0
  {
    if batch != [] {
      KeysInOrder(batch[..|batch| - 1]);
    }
  }

  /** The guard is given the keys of the four batches it looks at, in their order. */
  lemma GuardedKeysAre(b: Batches)
    ensures |GuardedKeys(b).cells| == |b.cells| && forall i :: 0 <= i < |b.cells| ==> GuardedKeys(b).cells[i] == b.cells[i].0
    ensures |GuardedKeys(b).dims| == |b.dims| && forall i :: 0 <= i < |b.dims| ==> GuardedKeys(b).dims[i] == b.dims[i].0
    ensures |GuardedKeys(b).merges| == |b.merges| && forall i :: 0 <= i < |b.merges| ==> GuardedKeys(b).merges[i] == b.merges[i].0
    ensures |GuardedKeys(b).tabs| == |b.tabs| && forall i :: 0 <= i < |b.tabs| ==> GuardedKeys(b).tabs[i] == b.tabs[i].0
  {
    KeysInOrder(b.cells);
    KeysInOrder(b.dims);
    KeysInOrder(b.merges);
    KeysInOrder(b.tabs);
    hide Keys;
  }

  lemma CommittedIs(m: Maps, b: Batches)
    ensures Committed(m, b) == if AllOk(b) then Some(AllApplied(m, AllPartsOf(b))) else None
    ensures StepOf(m, CommitStep(b)) == if AllOk(b) then AllApplied(m, AllPartsOf(b)) else m
  {
    hide AllOk, AllPartsOf, AllApplied;
  }

  class SheetDocument {
    const cells: SharedMap
    const dims: SharedMap
    const drawings: SharedMap
    const links: SharedMap
    const merges: SharedMap
    const tabs: SharedMap
    var fragment: seq<DocTree.Node>
    var rules: map<string, Val>
    var grants: map<string, Val>
    var sv: Vector
    var self: int
    var editVersion: Val

    ghost predicate Valid() {
      && cells != dims && cells != drawings && cells != links && cells != merges && cells != tabs
      && dims != drawings && dims != links && dims != merges && dims != tabs
      && drawings != links && drawings != merges && drawings != tabs
      && links != merges && links != tabs && merges != tabs
    }

    ghost function Contents(): Maps
      reads cells, dims, drawings, links, merges, tabs
    {
      Maps(cells.entries, dims.entries, drawings.entries, links.entries, merges.entries, tabs.entries)
    }

    constructor (m: Maps, fragment: seq<DocTree.Node>, rules: map<string, Val>, grants: map<string, Val>, sv: Vector, self: int)
      ensures Valid() && Contents() == m && this.fragment == fragment && this.rules == rules && this.grants == grants
      ensures this.sv == sv && this.self == self && editVersion == Undefined
      ensures fresh(cells) && fresh(dims) && fresh(drawings) && fresh(links) && fresh(merges) && fresh(tabs)
    {
      this.fragment, this.rules, this.grants, this.sv, this.self, this.editVersion := fragment, rules, grants, sv, self, Undefined;
      cells := new SharedMap(m.cells);
      dims := new SharedMap(m.dims);
      drawings := new SharedMap(m.drawings);
      links := new SharedMap(m.links);
      merges := new SharedMap(m.merges);
      tabs := new SharedMap(m.tabs);
    }

    /** A doc-private counter: even a pure deletion then adds a struct. */
    method AdvanceEditVersion()
      modifies this`editVersion, this`sv
      ensures editVersion == NextVersion(old(editVersion)) && sv == Advanced(old(sv), self, 1)
    {
      editVersion := NextVersion(editVersion);
      sv := Advanced(sv, self, 1);
    }

    method ApplyAll(p: AllParts)
      requires Valid()
      modifies this`sv, cells, dims, drawings, links, merges, tabs
      ensures Contents() == AllApplied(old(Contents()), p) && sv == Advanced(old(sv), self, Added(p))
    {
      hide Applied;
      cells.Apply(p.cells);
      dims.Apply(p.dims);
      drawings.Apply(p.drawings);
      links.Apply(p.links);
      merges.Apply(p.merges);
      tabs.Apply(p.tabs);
      sv := Advanced(sv, self, Added(p));
    }

    /**
     * `commitLiveSheetEdit` inside its transaction, which does not roll back: version guard,
     * protection guard, all six validations, then all six applications and the version bump.
     */
    method Commit(token: Vector, b: Batches, uid: string, isAdmin: bool, number: NumberReader) returns (r: Result<Vector, SheetError>)
      requires Valid()
      modifies this`sv, this`editVersion, cells, dims, drawings, links, merges, tabs
      ensures r.Err? ==> Contents() == old(Contents()) && sv == old(sv) && editVersion == old(editVersion)
      ensures token != old(sv) <==> r == Err(BaseVersionStale)
      ensures token == old(sv) && (isAdmin || SheetGuard.RegularBatch(GuardedKeys(b), number)) ==>
                var forbidden := if isAdmin then [] else Forbidden(rules, grants, b, uid, number);
                if forbidden != [] then r == Err(ProtectedRange(if |forbidden| <= 5 then forbidden else forbidden[..5]))
                else if AllOk(b) then r.Ok?
                else r == Err(SnapshotInvalid)
      ensures r.Ok? ==> Some(Contents()) == Committed(old(Contents()), b) && Contents() == StepOf(old(Contents()), CommitStep(b))
      ensures r.Ok? && AllDistinct(b) ==> AllLand(old(Contents()), b, Contents())
      ensures r.Ok? ==> WentUp(old(sv), sv, self, ValueCount(b) + 1) && r.value == sv
      ensures r.Ok? ==> editVersion == Num((if old(editVersion).Num? then old(editVersion).n else 0.0) + 1.0)
    {
      hide *;
      if token != sv {
        return Err(BaseVersionStale);
      }
      var refused := SheetGuard.AssertSheetWriteAllowed(rules, grants, GuardedKeys(b), uid, isAdmin, number);
      ForbiddenIs(rules, grants, b, uid, number);
      CommittedIs(Contents(), b);
      FirstFiveIs(refused);
      NextVersionIs(editVersion);
      if refused != [] {
        return Err(ProtectedRange(FirstFive(refused)));
      }
      var parts := ValidateAll(b);
      if parts.Err? {
        return Err(parts.error);
      }
      AcceptedLands(Contents(), b);
      AdvancedWentUp(sv, self, ValueCount(b), 1);
      ApplyAll(parts.value);
      AdvanceEditVersion();
      return Ok(sv);
    }

    /** Each batch validated and applied on its own map before the next is looked at. */
    method ApplyInTurn(b: Batches) returns (r: Result<nat, SheetError>)
      requires Valid()
      modifies cells, dims, drawings, links, merges, tabs
      ensures r.Ok? <==> AllOk(b)
      ensures r.Ok? ==> Contents() == AllApplied(old(Contents()), AllPartsOf(b))
      ensures r.Err? ==> r.error == SnapshotInvalid
    {
      hide BatchOk, PartsOf, Applied;
      var applied :- cells.ApplyBatch(Cells, b.cells);
      applied :- dims.ApplyBatch(Dims, b.dims);
      applied :- drawings.ApplyBatch(Drawings, b.drawings);
      applied :- links.ApplyBatch(Links, b.links);
      applied :- merges.ApplyBatch(SheetContracts.Merges, b.merges);
      applied :- tabs.ApplyBatch(Tabs, b.tabs);
      return Ok(0);
    }

    /** One map made equal to a validated target: stray keys go, target entries are set. */
    method ReconcileMap(m: SharedMap, target: map<string, Val>)
      modifies m
      ensures m.entries == target
      ensures m.added == old(m.added) + |target|
    {
      var stray := Enumerate(m.entries.Keys - target.Keys);
      var wanted := Enumerate(target.Keys);
      var sets := EntriesOf(target, wanted);
      ReconciledIs(m.entries, target, stray, wanted, sets);
      m.Apply(Parts(stray, sets));
    }

    method ReconcileAll(target: Maps)
      requires Valid()
      modifies this`sv, cells, dims, drawings, links, merges, tabs
      ensures Contents() == target && sv == Advanced(old(sv), self, Size(target))
    {
      ReconcileMap(cells, target.cells);
      ReconcileMap(dims, target.dims);
      ReconcileMap(drawings, target.drawings);
      ReconcileMap(links, target.links);
      ReconcileMap(merges, target.merges);
      ReconcileMap(tabs, target.tabs);
      sv := Advanced(sv, self, Size(target));
    }

    /**
     * `reconcileSheetMap`: a text document has nothing to do; otherwise the whole target is
     * judged before any live map is touched, and then the live maps equal it.
     */
    method ReconcileSheetMap(target: Maps) returns (r: Result<bool, SheetError>)
      requires Valid()
      modifies this`sv, cells, dims, drawings, links, merges, tabs
      ensures r.Ok? <==> AllValid(target)
      ensures r.Err? ==> r.error == SnapshotInvalid
      ensures r.Err? || r == Ok(false) ==> Contents() == old(Contents()) && sv == old(sv)
      ensures r == Ok(false) <==> old(Contents()) == EMPTY && target == EMPTY
      ensures r.Ok? ==> Contents() == AllKept(target) == StepOf(old(Contents()), RestoreStep(target)) && AllCopied(target, Contents())
      ensures r == Ok(true) ==> sv == Advanced(old(sv), self, Size(target))
    {
      hide Stored, Advanced, AllCopied;
      if AllValid(target) {
        KeptAreCopied(target);
      }
      if Maps(cells.entries, dims.entries, drawings.entries, links.entries, merges.entries, tabs.entries) == EMPTY && target == EMPTY {
        return Ok(false);
      }
      var kept :- CheckAll(target);
      KeptSize(target);
      ReconcileAll(kept);
      return Ok(true);
    }

    /**
     * `reconcileRestoreOntoDoc`: the fragment is reconciled before the sheet target is judged,
     * so on a bad target the document is left with the new fragment and the old sheet.
     * `inserted` is the number of structs the fragment reconcile adds.
     */
    method ReconcileRestoreOntoDoc(nodes: seq<DocTree.Node>, inserted: nat, target: Maps) returns (r: Result<bool, SheetError>)
      requires Valid()
      modifies this`fragment, this`sv, this`editVersion, cells, dims, drawings, links, merges, tabs
      ensures r.Ok? <==> AllValid(target)
      ensures fragment == nodes
      ensures r.Err? ==> r.error == SnapshotInvalid && Contents() == old(Contents())
      ensures r.Err? ==> sv == Advanced(old(sv), self, inserted) && editVersion == old(editVersion)
      ensures r.Ok? ==> Contents() == AllKept(target) && AllCopied(target, Contents())
      ensures r.Ok? ==> editVersion == Num((if old(editVersion).Num? then old(editVersion).n else 0.0) + 1.0)
      ensures r.Ok? ==> Clock(old(sv), self) < Clock(sv, self) && AtMost(old(sv), sv)
    {
      hide AllValid, AllKept, AllCopied, Stored;
      fragment := nodes;
      sv := Advanced(sv, self, inserted);
      var reconciled :- ReconcileSheetMap(target);
      AdvanceEditVersion();
      return Ok(reconciled);
    }

    /**
     * Restoring a version: the target is first reconciled onto a scratch copy of the stored
     * state, so a target that cannot be applied leaves the live document as it is.
     */
    method RestoreVersion(stored: Maps, storedNodes: seq<DocTree.Node>, nodes: Option<seq<DocTree.Node>>, inserted: nat, target: Maps)
      returns (r: Result<bool, SheetError>)
      requires Valid()
      modifies this`fragment, this`sv, this`editVersion, cells, dims, drawings, links, merges, tabs
      ensures r.Ok? <==> nodes.Some? && AllValid(target)
      ensures r.Err? ==> r.error == if nodes.None? then SchemaIncompatible else SnapshotInvalid
      ensures r.Err? ==> fragment == old(fragment) && Contents() == old(Contents()) && sv == old(sv) && editVersion == old(editVersion)
      ensures r.Ok? ==> fragment == nodes.value && Contents() == AllKept(target) && AllCopied(target, Contents())
      ensures r.Ok? ==> Clock(old(sv), self) < Clock(sv, self) && AtMost(old(sv), sv)
    {
      hide AllValid, AllKept, AllCopied, Contents, Clock, AtMost, Advanced, NextVersion;
      if nodes.None? {
        return Err(SchemaIncompatible);
      }
      var scratch := new SheetDocument(stored, storedNodes, map[], map[], map[], self);
      scratch.fragment := nodes.value;
      var preflight :- scratch.ReconcileSheetMap(target);
      r := ReconcileRestoreOntoDoc(nodes.value, inserted, target);
    }
  }

  /** The whole target is judged, map by map, before anything is returned. */
  method CheckAll(target: Maps) returns (r: Result<Maps, SheetError>)
    ensures r.Ok? <==> AllValid(target)
    ensures r.Ok? ==> r.value == AllKept(target)
    ensures r.Err? ==> r.error == SnapshotInvalid
  {
    hide ValidMap, KeptMap;
    var cells :- CheckMap(Cells, target.cells);
    var dims :- CheckMap(Dims, target.dims);
    var drawings :- CheckMap(Drawings, target.drawings);
    var links :- CheckMap(Links, target.links);
    var merges :- CheckMap(SheetContracts.Merges, target.merges);
    var tabs :- CheckMap(Tabs, target.tabs);
    return Ok(Maps(cells, dims, drawings, links, merges, tabs));
  }

  /** `measureSheetAfterEdit`, its maps: each batch in turn on a scratch copy, then the read check. */
  method MeasureSheetAfterEdit(pre: Maps, b: Batches) returns (r: Result<Maps, SheetError>)
    ensures Measured(pre, b) == if r.Ok? then Some(r.value) else None
    ensures r.Err? ==> r.error == SnapshotInvalid
  {
    hide AllOk, AllPartsOf, AllApplied, Readable, Listed;
    var scratch := new SheetDocument(pre, [], map[], map[], map[], 0);
    var applied :- scratch.ApplyInTurn(b);
    var result := Maps(scratch.cells.entries, scratch.dims.entries, scratch.drawings.entries,
                       scratch.links.entries, scratch.merges.entries, scratch.tabs.entries);
    var read :- CheckRead(Listed(result));
    return Ok(result);
  }

  method CheckRead(m: Maps) returns (r: Result<bool, SheetError>)
    ensures r.Ok? <==> Readable(m)
    ensures r.Err? ==> r.error == SnapshotInvalid
  {
    hide ValidMap, KeptMap;
    var read :- CheckMap(Cells, m.cells);
    read :- CheckMap(Dims, m.dims);
    read :- CheckMap(Links, m.links);
    read :- CheckMap(SheetContracts.Merges, m.merges);
    read :- CheckMap(Tabs, m.tabs);
    return Ok(true);
  }

  lemma KeptSize(m: Maps)
    requires AllValid(m)
    ensures Size(AllKept(m)) == Size(m)
    ensures m == EMPTY ==> AllKept(m) == EMPTY
  {
    KeptCount(Cells, m.cells);
    KeptCount(Dims, m.dims);
    KeptCount(Drawings, m.drawings);
    KeptCount(Links, m.links);
    KeptCount(SheetContracts.Merges, m.merges);
    KeptCount(Tabs, m.tabs);
    hide KeptMap, ValidMap;
  }

  lemma KeptCount(surface: Surface, m: map<string, Val>)
    requires ValidMap(surface, m)
    ensures |KeptMap(surface, m)| == |m|
    ensures m == map[] ==> KeptMap(surface, m) == map[]
  {
    hide Stored;
    assert KeptMap(surface, m).Keys == m.Keys;
  }

  // ----- laws -----

  /** A commit of any accepted batch leaves all six maps valid. */
  lemma CommitKeepsValid(m: Maps, b: Batches)
    requires AllValid(m)
    ensures AllValid(AllApplied(m, AllPartsOf(b)))
  {
    BatchKeepsValid(Cells, m.cells, b.cells);
    BatchKeepsValid(Dims, m.dims, b.dims);
    BatchKeepsValid(Drawings, m.drawings, b.drawings);
    BatchKeepsValid(Links, m.links, b.links);
    BatchKeepsValid(SheetContracts.Merges, m.merges, b.merges);
    BatchKeepsValid(Tabs, m.tabs, b.tabs);
    hide ValidMap, Applied, PartsOf;
  }

  const NO_EDITS: Batches := Batches([], [], [], [], [], [])

  lemma NoEditsChangeNothing(m: Maps)
    ensures Committed(m, NO_EDITS) == Some(m)
  {
  }

  /**
   * The pre-flight answers for every batch what a commit that passes both guards then does, maps
   * included, exactly when what it lists of the sheet is readable to begin with.
   */
  lemma MeasurePredictsCommit(m: Maps)
    ensures (forall b :: Measured(m, b) == Committed(m, b)) <==> Readable(Listed(m))
  {
    hide AllOk, AllPartsOf, AllApplied, Readable, Listed;
    NoEditsChangeNothing(m);
    if Readable(Listed(m)) {
      forall b
        ensures Measured(m, b) == Committed(m, b)
      {
        CommitKeepsReadable(m, b);
      }
    } else {
      assert Measured(m, NO_EDITS) != Committed(m, NO_EDITS);
    }
  }

  lemma CommitKeepsReadable(m: Maps, b: Batches)
    requires Readable(Listed(m))
    ensures Readable(Listed(AllApplied(m, AllPartsOf(b))))
  {
    hide ValidMap, Applied, PartsOf, PROTO;
    BatchKeepsRest(Cells, m.cells, b.cells, PROTO);
    BatchKeepsRest(Dims, m.dims, b.dims, PROTO);
    BatchKeepsRest(Links, m.links, b.links, PROTO);
    BatchKeepsRest(SheetContracts.Merges, m.merges, b.merges, PROTO);
    BatchKeepsRest(Tabs, m.tabs, b.tabs, PROTO);
  }

  /** No contract admits that name, so a sheet can be listed as readable and not be so. */
  lemma ProtoIsNeverValid(surface: Surface, m: map<string, Val>)
    ensures ValidMap(surface, m) <==> ValidMap(surface, m - PROTO) && "__proto__" !in m
  {
    ProtoIsNoKey(surface);
    hide ValidKey, ValueOk, PROTO;
    assert PROTO == {"__proto__"} by {
      ProtoIs();
    }
    assert Stored(surface, "__proto__", Undefined).None?;
    forall key | key in m && key != "__proto__"
      ensures key in m - PROTO && (m - PROTO)[key] == m[key]
    {
    }
  }

  lemma ProtoIs()
    ensures PROTO == {"__proto__"}
  {
  }

  lemma ProtoIsNoKey(surface: Surface)
    ensures !ValidKey(surface, "__proto__")
  {
    ProtoIsPlain();
    PlainIsNoKey(surface, "__proto__");
  }

  lemma ProtoIsPlain()
    ensures '!' !in "__proto__" && ':' !in "__proto__" && "__proto__"[0] == '_' && "__proto__" in RESERVED_IDS
  {
    assert "__proto__" == ['_', '_', 'p', 'r', 'o', 't', 'o', '_', '_'];
  }

  lemma PlainIsNoKey(surface: Surface, key: string)
    requires '!' !in key && ':' !in key && key != "" && key[0] == '_' && key in RESERVED_IDS
    ensures !ValidKey(surface, key)
  {
    NoBang(key);
    NotSplit(key, ':');
    hide IndexOf, Split, RESERVED_IDS;
  }

  lemma NoBang(s: string)
    requires '!' !in s && ':' !in s
    ensures IndexOf(s, '!') < 0 && IndexOf(s, ':') < 0
  {
  }

  lemma NotSplit(s: string, c: char)
    requires IndexOf(s, c) < 0
    ensures |Split(s, c)| == 1
  {
  }

  /** What the pre-flight finds readable the read path serves, unless a merge or a tab has that name. */
  lemma ServedIff(m: Maps)
    ensures Served(m) <==> Readable(Listed(m)) && "__proto__" !in m.merges && "__proto__" !in m.tabs
  {
    hide ValidMap, PROTO;
    ProtoIsNeverValid(SheetContracts.Merges, m.merges);
    ProtoIsNeverValid(Tabs, m.tabs);
  }

  /** So a commit of a sheet with such a stored tab passes the pre-flight, and the sheet is not served. */
  lemma HiddenTabIsOverlooked(v: Val)
    ensures var m := EMPTY.(tabs := map["__proto__" := v]);
            Measured(m, NO_EDITS) == Some(m) && !Served(m)
  {
    var m := EMPTY.(tabs := map["__proto__" := v]);
    hide AllOk, AllPartsOf, AllApplied, ValidMap, Stored;
    NoEditsChangeNothing(m);
    ServedIff(m);
    assert Listed(m) == EMPTY;
    EmptyIsReadable();
  }

  lemma EmptyIsReadable()
    ensures Readable(EMPTY)
  {
  }

  // ----- the guard and the contracts -----

  /** No merge is deleted under a key with inverted corners. */
  predicate OrderedDeletions(merges: Entries) {
    forall e :: e in merges && IsDeletion(e.1) ==> OrderedCorners(e.0)
  }

  lemma CornersAre(key: string, number: NumberReader)
    requires ValidMergeKey(key) && ReadsDecimals(number)
    ensures GuardLaws.OrderedMerge(key, number) <==> OrderedCorners(key)
  {
    hide Split, Value;
    var parts := Split(key, ':');
    assert forall i :: 1 <= i < 5 ==> Coordinate(parts[i]) && number(parts[i]) == Some(Value(parts[i]));
  }

  lemma {:induction false} KeysAre(batch: Entries, key: string)
    ensures key in Keys(batch) <==> exists e :: e in batch && e.0 == key
  {
    if batch != [] {
      var front, last := batch[..|batch| - 1], batch[|batch| - 1];
      KeysAre(front, key);
      assert forall e :: e in batch <==> e in front || e == last;
    }
  }

  lemma OkKeysAreValid(surface: Surface, batch: Entries)
    requires BatchOk(surface, batch)
    ensures forall key :: key in Keys(batch) ==> ValidKey(surface, key)
  {
    hide Keys, ValidKey, ValueOk;
    forall key | key in Keys(batch)
      ensures ValidKey(surface, key)
    {
      KeysAre(batch, key);
    }
  }

  lemma OkIsAccepted(b: Batches)
    requires AllOk(b)
    ensures GuardLaws.AcceptedKeys(GuardedKeys(b))
  {
    OkKeysAreValid(Cells, b.cells);
    OkKeysAreValid(Dims, b.dims);
    OkKeysAreValid(SheetContracts.Merges, b.merges);
    OkKeysAreValid(Tabs, b.tabs);
    hide BatchOk, Keys, ValidCellKey, ValidDimKey, ValidMergeKey, ValidTabKey;
  }

  /** A merge that is stored has ordered corners, so only a deletion can name inverted ones. */
  lemma MergesAreOrdered(batch: Entries, number: NumberReader)
    requires BatchOk(SheetContracts.Merges, batch) && ReadsDecimals(number)
    ensures (forall key :: key in Keys(batch) ==> GuardLaws.OrderedMerge(key, number)) <==> OrderedDeletions(batch)
  {
    OkKeysAreValid(SheetContracts.Merges, batch);
    hide Keys, ValidMergeKey, OrderedCorners, ReadsDecimals, GuardLaws.OrderedMerge;
    forall key | key in Keys(batch)
      ensures GuardLaws.OrderedMerge(key, number) <==> OrderedCorners(key)
    {
      CornersAre(key, number);
    }
    forall e | e in batch
      ensures e.0 in Keys(batch)
    {
      KeysAre(batch, e.0);
    }
    forall key | key in Keys(batch)
      ensures exists e :: e in batch && e.0 == key
    {
      KeysAre(batch, key);
    }
  }

  /**
   * Of the batches the contracts accept, the guard decides exactly those as specified, for all
   * rules and writers, that delete no merge under inverted corners.
   */
  lemma GuardDecidesIff(b: Batches, number: NumberReader)
    requires AllOk(b) && ReadsDecimals(number)
    ensures GuardLaws.AnswersBatch(GuardedKeys(b), number) <==> OrderedDeletions(b.merges)
    ensures SheetGuard.RegularBatch(GuardedKeys(b), number) <==> OrderedDeletions(b.merges)
  {
    OkIsAccepted(b);
    MergesAreOrdered(b.merges, number);
    hide ReadsDecimals, GuardLaws.AcceptedKeys, BatchOk, OrderedDeletions, SheetGuard.RegularBatch, GuardLaws.AnswersBatch, GuardLaws.OrderedMerge;
    GuardLaws.GuardIsExactIff(GuardedKeys(b), number);
    if OrderedDeletions(b.merges) {
      GuardLaws.AcceptedIsRegular(GuardedKeys(b), number);
    } else if SheetGuard.RegularBatch(GuardedKeys(b), number) {
      GuardLaws.RegularIsExact(GuardedKeys(b), number);
    }
  }

  /** The batch without its deletions under inverted corners. */
  function Effective(merges: Entries): Entries {
    if merges == [] then []
    else
      var front, last := Effective(merges[..|merges| - 1]), merges[|merges| - 1];
      if IsDeletion(last.1) && !OrderedCorners(last.0) then front else front + [last]
  }

  lemma PartsSnoc(front: Entries, last: (string, Val))
    ensures var p, q := PartsOf(SheetContracts.Merges, front), PartsOf(SheetContracts.Merges, front + [last]);
            && q.toDelete == (if IsDeletion(last.1) then p.toDelete + [last.0] else p.toDelete)
            && q.toSet == (if !IsDeletion(last.1) && Stored(SheetContracts.Merges, last.0, last.1).Some?
                           then p.toSet + [(last.0, Stored(SheetContracts.Merges, last.0, last.1).value)] else p.toSet)
  {
    hide Stored;
    assert (front + [last])[..|front + [last]| - 1] == front;
  }

  lemma DeleteSnoc(m: map<string, Val>, keys: seq<string>, key: string)
    ensures DeleteKeys(m, keys + [key]) == DeleteKeys(m, keys) - {key}
  {
    assert (keys + [key])[..|keys + [key]| - 1] == keys;
  }

  lemma StoredCorners(m: map<string, Val>, key: string)
    requires ValidMap(SheetContracts.Merges, m) && !OrderedCorners(key)
    ensures key !in m
  {
    hide OrderedCorners, ValidMergeKey;
  }

  lemma {:induction false} EffectiveParts(m: map<string, Val>, merges: Entries)
    requires ValidMap(SheetContracts.Merges, m)
    ensures var p, q := PartsOf(SheetContracts.Merges, merges), PartsOf(SheetContracts.Merges, Effective(merges));
            q.toSet == p.toSet && DeleteKeys(m, q.toDelete) == DeleteKeys(m, p.toDelete)
  {
    hide OrderedCorners, ValidMap, Stored, PartsOf, DeleteKeys;
    if merges != [] {
      var front, last := merges[..|merges| - 1], merges[|merges| - 1];
      assert merges == front + [last];
      EffectiveParts(m, front);
      var p, q := PartsOf(SheetContracts.Merges, front), PartsOf(SheetContracts.Merges, Effective(front));
      PartsSnoc(front, last);
      PartsSnoc(Effective(front), last);
      DeleteKeysIs(m, p.toDelete);
      DeleteSnoc(m, p.toDelete, last.0);
      DeleteSnoc(m, q.toDelete, last.0);
      if !OrderedCorners(last.0) {
        StoredCorners(m, last.0);
      }
    }
  }

  lemma {:induction false} EffectiveIsOrdered(merges: Entries)
    ensures OrderedDeletions(Effective(merges))
  {
    hide OrderedCorners;
    if merges != [] {
      EffectiveIsOrdered(merges[..|merges| - 1]);
    }
  }

  /** Where the guard may err, nothing is at stake: such a deletion does nothing to a valid sheet. */
  lemma InvertedDeletionsAreIdle(m: map<string, Val>, merges: Entries)
    requires ValidMap(SheetContracts.Merges, m)
    ensures OrderedDeletions(Effective(merges))
    ensures Applied(m, PartsOf(SheetContracts.Merges, merges)) == Applied(m, PartsOf(SheetContracts.Merges, Effective(merges)))
  {
    EffectiveIsOrdered(merges);
    EffectiveParts(m, merges);
    hide ValidMap, PartsOf, Effective;
  }

  /** What a restore leaves is valid, and restoring the same version again changes nothing. */
  lemma RestoreIsStable(target: Maps)
    requires AllValid(target)
    ensures AllValid(AllKept(target)) && AllKept(AllKept(target)) == AllKept(target)
  {
    KeptIsStable(Cells, target.cells);
    KeptIsStable(Dims, target.dims);
    KeptIsStable(Drawings, target.drawings);
    KeptIsStable(Links, target.links);
    KeptIsStable(SheetContracts.Merges, target.merges);
    KeptIsStable(Tabs, target.tabs);
    hide ValidMap, KeptMap;
  }

  datatype Step = CommitStep(b: Batches) | RestoreStep(target: Maps)

  /** What an accepted step leaves; a refused one leaves the sheet as it was. */
  function StepOf(m: Maps, step: Step): Maps {
    match step
    case CommitStep(b) => if AllOk(b) then AllApplied(m, AllPartsOf(b)) else m
    case RestoreStep(target) => if AllValid(target) then AllKept(target) else m
  }

  function RunOf(m: Maps, steps: seq<Step>): Maps {
    if steps == [] then m else StepOf(RunOf(m, steps[..|steps| - 1]), steps[|steps| - 1])
  }

  lemma RunGoesOn(m: Maps, steps: seq<Step>, step: Step)
    ensures RunOf(m, []) == m && RunOf(m, steps + [step]) == StepOf(RunOf(m, steps), step)
  {
    hide StepOf;
    assert (steps + [step])[..|steps + [step]| - 1] == steps;
  }

  /** Every state that commits and restores reach from a valid sheet passes every read validator. */
  lemma {:induction false} RunStaysValid(m: Maps, steps: seq<Step>)
    requires AllValid(m)
    ensures AllValid(RunOf(m, steps))
  {
    hide AllValid, AllApplied, AllKept, AllPartsOf, AllOk;
    if steps != [] {
      var before, last := RunOf(m, steps[..|steps| - 1]), steps[|steps| - 1];
      RunStaysValid(m, steps[..|steps| - 1]);
      match last
      case CommitStep(b) => CommitKeepsValid(before, b);
      case RestoreStep(target) =>
        if AllValid(target) {
          RestoreIsStable(target);
        }
    }
  }

  /** All six batches are judged before anything is applied. */
  method ValidateAll(b: Batches) returns (r: Result<AllParts, SheetError>)
    ensures r.Ok? <==> AllOk(b)
    ensures r.Ok? ==> r.value == AllPartsOf(b)
    ensures r.Err? ==> r.error == SnapshotInvalid
  {
    hide BatchOk, PartsOf;
    var cells :- ValidateBatch(Cells, b.cells);
    var dims :- ValidateBatch(Dims, b.dims);
    var drawings :- ValidateBatch(Drawings, b.drawings);
    var links :- ValidateBatch(Links, b.links);
    var merges :- ValidateBatch(SheetContracts.Merges, b.merges);
    var tabs :- ValidateBatch(Tabs, b.tabs);
    return Ok(AllParts(cells, dims, drawings, links, merges, tabs));
  }

  lemma ForbiddenIs(rules: map<string, Val>, grants: map<string, Val>, b: Batches, uid: string, number: NumberReader)
    ensures Forbidden(rules, grants, b, uid, number) == SheetGuard.RefusedKeys(SheetGuard.Targets(GuardedKeys(b), number), rules, grants, uid)
  {
    hide SheetGuard.RefusedKeys, GuardedKeys, SheetGuard.Targets;
  }

  function NextVersion(v: Val): Val {
    Num((if v.Num? then v.n else 0.0) + 1.0)
  }

  lemma NextVersionIs(v: Val)
    ensures NextVersion(v) == Num((if v.Num? then v.n else 0.0) + 1.0)
  {
  }

  lemma FirstFiveIs(keys: seq<string>)
    ensures FirstFive(keys) == if |keys| <= 5 then keys else keys[..5]
  {
  }

  method EntriesOf(target: map<string, Val>, keys: seq<string>) returns (entries: Entries)
    requires Elements(keys) == target.Keys
    ensures |entries| == |keys| && forall i :: 0 <= i < |keys| ==> keys[i] in target && entries[i] == (keys[i], target[keys[i]])
  {
    assert forall key :: key in keys ==> key in Elements(keys);
    entries := seq(|keys|, i requires 0 <= i < |keys| => (keys[i], target[keys[i]]));
  }

  lemma {:induction false} SetKeysIs(m: map<string, Val>, target: map<string, Val>, keys: seq<string>, entries: Entries, key: string)
    requires |entries| == |keys| && forall i :: 0 <= i < |keys| ==> keys[i] in target && entries[i] == (keys[i], target[keys[i]])
    ensures key in SetKeys(m, entries) <==> key in m || key in keys
    ensures key in SetKeys(m, entries) ==> SetKeys(m, entries)[key] == if key in keys then target[key] else m[key]
  {
    if keys != [] {
      var n := |keys| - 1;
      SetKeysIs(m, target, keys[..n], entries[..n], key);
      assert key in keys <==> key in keys[..n] || key == keys[n];
    }
  }

  lemma ReconciledIs(m: map<string, Val>, target: map<string, Val>, stray: seq<string>, wanted: seq<string>, entries: Entries)
    requires Elements(stray) == m.Keys - target.Keys && Elements(wanted) == target.Keys && Distinct(wanted)
    requires |entries| == |wanted| && forall i :: 0 <= i < |wanted| ==> wanted[i] in target && entries[i] == (wanted[i], target[wanted[i]])
    ensures Applied(m, Parts(stray, entries)) == target
    ensures |entries| == |target|
  {
    DeleteKeysIs(m, stray);
    DistinctCount(wanted);
    var out := Applied(m, Parts(stray, entries));
    forall key
      ensures key in out <==> key in target
      ensures key in out ==> out[key] == target[key]
    {
      hide DeleteKeys, SetKeys, Distinct;
      assert key in wanted <==> key in Elements(wanted);
      SetKeysIs(DeleteKeys(m, stray), target, wanted, entries, key);
    }
    hide *;
    assert out == target;
    assert target.Keys == Elements(wanted);
    KeysCount(target);
  }

  lemma KeysCount(m: map<string, Val>)
    ensures |m| == |m.Keys|
  {
  }

  lemma {:induction false} DistinctCount(xs: seq<string>)
    requires Distinct(xs)
    ensures |Elements(xs)| == |xs|
  {
    if xs != [] {
      DistinctCount(xs[..|xs| - 1]);
      assert xs == xs[..|xs| - 1] + [xs[|xs| - 1]];
      ElementsSnoc(xs[..|xs| - 1], xs[|xs| - 1]);
      assert xs[|xs| - 1] !in Elements(xs[..|xs| - 1]);
    } else {
      NoElements(xs);
    }
  }
}
