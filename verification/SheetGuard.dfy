/**
 * The protection guard as the code runs it: rules indexed by sheet in any order, decisions
 * memoized, one pass over each kind of key. It refines the specification of GuardSpec.
 */
module SheetGuard {
  import opened Prelude
  import opened JsValues
  import opened Strings
  import opened SheetKeys
  import opened GuardSpec

  /** What is known of one sheet: permissions locking all of it, and guarded rectangles. */
  datatype SheetIndex = SheetIndex(whole: seq<string>, rects: seq<(Rect, string)>)

  datatype Index = Index(bySheet: map<string, SheetIndex>, docWide: seq<string>)

  function EntryOf(idx: Index, sheet: string): SheetIndex {
    if sheet in idx.bySheet then idx.bySheet[sheet] else SheetIndex([], [])
  }

  function Pairs(rects: seq<Rect>, permission: string): seq<(Rect, string)> {
    if rects == [] then [] else Pairs(rects[..|rects| - 1], permission) + [(rects[|rects| - 1], permission)]
  }

  function AddRule(idx: Index, key: string, rule: Val): Index {
    AddExtent(idx, ExtentOf(key, rule), PermissionOf(rule))
  }

  function AddExtent(idx: Index, extent: Extent, permission: string): Index {
    match extent
    case Document => Index(idx.bySheet, idx.docWide + [permission])
    case WholeSheet(sheet) =>
      var e := EntryOf(idx, sheet);
      Index(idx.bySheet[sheet := SheetIndex(e.whole + [permission], e.rects)], idx.docWide)
    case Areas(sheet, rects) =>
      var e := EntryOf(idx, sheet);
      Index(idx.bySheet[sheet := SheetIndex(e.whole, e.rects + Pairs(rects, permission))], idx.docWide)
  }

  function IndexOfRules(rules: map<string, Val>, keys: seq<string>): Index {
    if keys == [] then Index(map[], [])
    else
      var key := keys[|keys| - 1];
      var before := IndexOfRules(rules, keys[..|keys| - 1]);
      if key in rules then AddRule(before, key, rules[key]) else before
  }

  // ----- what the index answers -----

  predicate AnyDenied(permissions: seq<string>, grants: map<string, Val>, uid: string) {
    exists p :: p in permissions && !Permits(grants, uid, p)
  }

  predicate AnyRectDenies(rects: seq<(Rect, string)>, grants: map<string, Val>, uid: string, t: Target) {
    exists r :: r in rects && Touches(r.0, t) && !Permits(grants, uid, r.1)
  }

  predicate EntryBlocks(e: SheetIndex, grants: map<string, Val>, uid: string, t: Target) {
    AnyDenied(e.whole, grants, uid) || AnyRectDenies(e.rects, grants, uid, t)
  }

  predicate Blocks(idx: Index, grants: map<string, Val>, uid: string, t: Target) {
    AnyDenied(idx.docWide, grants, uid) || EntryBlocks(EntryOf(idx, t.sheet), grants, uid, t)
  }

  lemma DeniedSnoc(permissions: seq<string>, p: string, grants: map<string, Val>, uid: string)
    ensures AnyDenied(permissions + [p], grants, uid) <==> AnyDenied(permissions, grants, uid) || !Permits(grants, uid, p)
  {
    hide Permits;
    assert p in permissions + [p];
    assert forall q :: q in permissions ==> q in permissions + [p];
  }

  lemma RectDeniesConcat(xs: seq<(Rect, string)>, ys: seq<(Rect, string)>, grants: map<string, Val>, uid: string, t: Target)
    ensures AnyRectDenies(xs + ys, grants, uid, t) <==> AnyRectDenies(xs, grants, uid, t) || AnyRectDenies(ys, grants, uid, t)
  {
    hide Permits, Touches;
    assert forall r :: r in xs + ys <==> r in xs || r in ys;
  }

  lemma {:induction false} PairsDeny(rects: seq<Rect>, permission: string, grants: map<string, Val>, uid: string, t: Target)
    ensures AnyRectDenies(Pairs(rects, permission), grants, uid, t) <==>
            !Permits(grants, uid, permission) && exists rect :: rect in rects && Touches(rect, t)
  {
    hide Permits, Touches;
    if rects != [] {
      var front, last := rects[..|rects| - 1], rects[|rects| - 1];
      PairsDeny(front, permission, grants, uid, t);
      RectDeniesConcat(Pairs(front, permission), [(last, permission)], grants, uid, t);
      assert rects == front + [last];
      assert (last, permission) in [(last, permission)];
    }
  }

  /** Adding a rule blocks exactly what the rule hits, for a writer it does not permit. */
  lemma AddRuleBlocks(idx: Index, key: string, rule: Val, grants: map<string, Val>, uid: string, t: Target)
    ensures Blocks(AddRule(idx, key, rule), grants, uid, t) <==>
            Blocks(idx, grants, uid, t) || (Hits(ExtentOf(key, rule), t) && !Permits(grants, uid, PermissionOf(rule)))
  {
    AddExtentBlocks(idx, ExtentOf(key, rule), PermissionOf(rule), grants, uid, t);
    hide ExtentOf, PermissionOf, AddExtent, Blocks, Hits, Permits;
  }

  lemma AddExtentBlocks(idx: Index, extent: Extent, permission: string, grants: map<string, Val>, uid: string, t: Target)
    ensures Blocks(AddExtent(idx, extent, permission), grants, uid, t) <==>
            Blocks(idx, grants, uid, t) || (Hits(extent, t) && !Permits(grants, uid, permission))
  {
    var e := EntryOf(idx, t.sheet);
    hide Permits, Touches, AnyDenied, AnyRectDenies, Pairs;
    match extent
    case Document =>
      DeniedSnoc(idx.docWide, permission, grants, uid);
    case WholeSheet(_) =>
      DeniedSnoc(e.whole, permission, grants, uid);
    case Areas(_, rects) =>
      PairsDeny(rects, permission, grants, uid, t);
      RectDeniesConcat(e.rects, Pairs(rects, permission), grants, uid, t);
  }

  lemma {:induction false} IndexBlocks(rules: map<string, Val>, keys: seq<string>, grants: map<string, Val>, uid: string, t: Target)
    requires forall key :: key in keys ==> key in rules
    ensures Blocks(IndexOfRules(rules, keys), grants, uid, t) <==>
            exists key :: key in keys && Hits(ExtentOf(key, rules[key]), t) && !Permits(grants, uid, PermissionOf(rules[key]))
  {
    hide Permits, Hits, ExtentOf, PermissionOf, Touches, AddRule;
    if keys == [] {
      assert !AnyDenied([], grants, uid) && !AnyRectDenies([], grants, uid, t);
    } else {
      var front, last := keys[..|keys| - 1], keys[|keys| - 1];
      assert last in keys && forall key :: key in front ==> key in keys;
      IndexBlocks(rules, front, grants, uid, t);
      AddRuleBlocks(IndexOfRules(rules, front), last, rules[last], grants, uid, t);
      assert forall key :: key in keys ==> key in front || key == last;
      hide Blocks;
    }
  }

  /** However the rules are enumerated, the index blocks exactly what the specification refuses. */
  lemma IndexRefines(rules: map<string, Val>, keys: seq<string>, grants: map<string, Val>, uid: string, t: Target)
    requires Elements(keys) == rules.Keys && Regular(t)
    ensures Blocks(IndexOfRules(rules, keys), grants, uid, t) <==> Refused(rules, grants, uid, t)
  {
    assert forall key :: key in keys <==> key in Elements(keys);
    IndexBlocks(rules, keys, grants, uid, t);
    hide Blocks, IndexOfRules, Permits, Hits, ExtentOf, PermissionOf, Guards, Denotes, Regular;
    forall key | key in rules
      ensures Hits(ExtentOf(key, rules[key]), t) <==> exists c :: Denotes(t, c) && Guards(ExtentOf(key, rules[key]), c)
    {
      HitsIsMeeting(key, rules[key], t);
    }
  }

  // ----- the code -----

  /** The batch: for each map its keys, in order; the values do not matter to the guard. */
  datatype Batch = Batch(cells: seq<string>, dims: seq<string>, merges: seq<string>, tabs: seq<string>)

  datatype Kind = CellKey | DimKey | MergeKey | TabKey

  function TargetOf(kind: Kind, key: string, number: NumberReader): Option<Target> {
    match kind
    case CellKey => CellTarget(key, number)
    case DimKey => DimTarget(key, number)
    case MergeKey => MergeTarget(key, number)
    case TabKey => Some(Tab(key))
  }

  function TargetsOf(kind: Kind, keys: seq<string>, number: NumberReader): seq<(string, Option<Target>)> {
    if keys == [] then []
    else TargetsOf(kind, keys[..|keys| - 1], number) + [(keys[|keys| - 1], TargetOf(kind, keys[|keys| - 1], number))]
  }

  function Targets(b: Batch, number: NumberReader): seq<(string, Option<Target>)> {
    TargetsOf(CellKey, b.cells, number) + TargetsOf(DimKey, b.dims, number)
    + TargetsOf(MergeKey, b.merges, number) + TargetsOf(TabKey, b.tabs, number)
  }

  /** The keys an index blocks, in order. */
  function BlockedKeys(ts: seq<(string, Option<Target>)>, idx: Index, grants: map<string, Val>, uid: string): seq<string> {
    if ts == [] then []
    else
      var front, last := BlockedKeys(ts[..|ts| - 1], idx, grants, uid), ts[|ts| - 1];
      if last.1.Some? && Blocks(idx, grants, uid, last.1.value) then front + [last.0] else front
  }

  lemma {:induction false} BlockedConcat(xs: seq<(string, Option<Target>)>, ys: seq<(string, Option<Target>)>, idx: Index, grants: map<string, Val>, uid: string)
    ensures BlockedKeys(xs + ys, idx, grants, uid) == BlockedKeys(xs, idx, grants, uid) + BlockedKeys(ys, idx, grants, uid)
  {
    hide Blocks;
    if ys == [] {
      assert xs + ys == xs;
    } else {
      var front, last := ys[..|ys| - 1], ys[|ys| - 1];
      assert (xs + ys)[..|xs + ys| - 1] == xs + front;
      BlockedConcat(xs, front, idx, grants, uid);
    }
  }

  /** Decisions per permission, resolved once. */
  class PermitCache {
    const grants: map<string, Val>
    const uid: string
    var decided: map<string, bool>

    ghost predicate Valid()
      reads this
    {
      forall p :: p in decided ==> decided[p] == Permits(grants, uid, p)
    }

    constructor (grants: map<string, Val>, uid: string)
      ensures Valid() && this.grants == grants && this.uid == uid
    {
      this.grants, this.uid, this.decided := grants, uid, map[];
    }

    method Permitted(permission: string) returns (v: bool)
      requires Valid()
      modifies this
      ensures Valid() && v == Permits(grants, uid, permission)
    {
      if permission in decided {
        return decided[permission];
      }
      v := Permits(grants, uid, permission);
      decided := decided[permission := v];
    }

    method SomeDenied(permissions: seq<string>) returns (denied: bool)
      requires Valid()
      modifies this
      ensures Valid() && denied == AnyDenied(permissions, grants, uid)
    {
      hide Permits;
      for i := 0 to |permissions|
        invariant Valid() && forall j :: 0 <= j < i ==> Permits(grants, uid, permissions[j])
      {
        var ok := Permitted(permissions[i]);
        if !ok {
          return true;
        }
      }
      return false;
    }

    method SomeRectDenied(rects: seq<(Rect, string)>, t: Target) returns (denied: bool)
      requires Valid()
      modifies this
      ensures Valid() && denied == AnyRectDenies(rects, grants, uid, t)
    {
      hide Permits, Touches;
      for i := 0 to |rects|
        invariant Valid() && forall j :: 0 <= j < i ==> !Touches(rects[j].0, t) || Permits(grants, uid, rects[j].1)
      {
        if Touches(rects[i].0, t) {
          var ok := Permitted(rects[i].1);
          if !ok {
            assert rects[i] in rects;
            return true;
          }
        }
      }
      return false;
    }

    /** Is a write to `t` refused? `everywhere` says whether some document-wide rule denies the writer. */
    method Blocked(idx: Index, everywhere: bool, t: Target) returns (blocked: bool)
      requires Valid() && everywhere == AnyDenied(idx.docWide, grants, uid)
      modifies this
      ensures Valid() && blocked == Blocks(idx, grants, uid, t)
    {
      hide AnyDenied, AnyRectDenies;
      NothingDenied(grants, uid, t);
      if everywhere {
        return true;
      }
      if t.sheet !in idx.bySheet {
        return false;
      }
      var e := idx.bySheet[t.sheet];
      blocked := SomeDenied(e.whole);
      if !blocked {
        blocked := SomeRectDenied(e.rects, t);
      }
    }
  }

  lemma NothingDenied(grants: map<string, Val>, uid: string, t: Target)
    ensures !AnyDenied([], grants, uid) && !AnyRectDenies([], grants, uid, t)
  {
  }

  /** `readRects`. */
  method ReadRects(raw: Val) returns (rects: seq<Rect>, malformed: bool)
    ensures malformed == Malformed(raw)
    ensures raw.Arr? ==> rects == ReadItems(raw.items)
    ensures !raw.Arr? ==> rects == []
  {
    if !raw.Arr? {
      return [], true;
    }
    hide ReadItems, Malformed, FieldVal, IsInteger;
    rects, malformed := [], false;
    NothingRead();
    assert raw.items[..0] == [];
    for i := 0 to |raw.items|
      invariant rects == ReadItems(raw.items[..i]) && malformed == Malformed(Arr(raw.items[..i]))
    {
      var r := raw.items[i];
      assert raw.items[..i + 1] == raw.items[..i] + [r];
      ItemsSnoc(raw.items[..i], r);
      if !IsObject(r) || !FourIntegers(r) {
        malformed := true;
      } else {
        var sr, sc := FieldVal(r, "startRow").n.Floor, FieldVal(r, "startColumn").n.Floor;
        var er, ec := FieldVal(r, "endRow").n.Floor, FieldVal(r, "endColumn").n.Floor;
        var rect := Rect(Min(sr, er), Min(sc, ec), Max(sr, er), Max(sc, ec));
        if rect.endRow < 0 || rect.endColumn < 0 {
          malformed := true;
        } else {
          rects := rects + [rect];
        }
      }
    }
    assert raw.items[..|raw.items|] == raw.items;
  }

  lemma NothingRead()
    ensures ReadItems([]) == [] && !Malformed(Arr([]))
  {
  }

  /** One more element, read or not. */
  lemma ItemsSnoc(xs: seq<Val>, x: Val)
    ensures ReadItems(xs + [x]) == if ReadRect(x).Some? then ReadItems(xs) + [ReadRect(x).value] else ReadItems(xs)
    ensures Malformed(Arr(xs + [x])) <==> Malformed(Arr(xs)) || ReadRect(x).None?
  {
    hide ReadRect;
    assert (xs + [x])[..|xs + [x]| - 1] == xs;
    assert forall r :: r in xs + [x] <==> r in xs || r == x;
  }

  /** One rule into the index, branch by branch. */
  method IndexRule(idx: Index, key: string, rule: Val) returns (out: Index)
    ensures out == AddRule(idx, key, rule)
  {
    hide IndexOf, Malformed, ReadItems, FieldVal;
    var bang := IndexOf(key, '!');
    var permission := PermissionOf(rule);
    if !IsObject(rule) {
      UnreadableIsSentinel(rule);
      if bang <= 0 {
        return Index(idx.bySheet, idx.docWide + [SENTINEL]);
      }
      var e := EntryOf(idx, key[..bang]);
      return Index(idx.bySheet[key[..bang] := SheetIndex(e.whole + [SENTINEL], e.rects)], idx.docWide);
    }
    if bang <= 0 {
      return Index(idx.bySheet, idx.docWide + [permission]);
    }
    var sheet, kind := key[..bang], KindOf(key);
    var e := EntryOf(idx, sheet);
    var locked := Index(idx.bySheet[sheet := SheetIndex(e.whole + [permission], e.rects)], idx.docWide);
    if permission == SENTINEL || kind == "w" {
      return locked;
    }
    var rects, malformed := ReadRects(FieldVal(rule, "ranges"));
    RangesAreList(FieldVal(rule, "ranges"));
    if malformed || |rects| == 0 {
      assert |rects| == 0 ==> rects == [];
      return locked;
    }
    return Index(idx.bySheet[sheet := SheetIndex(e.whole, e.rects + Pairs(rects, permission))], idx.docWide);
  }

  lemma RangesAreList(ranges: Val)
    ensures !Malformed(ranges) ==> ranges.Arr?
  {
  }

  lemma UnreadableIsSentinel(rule: Val)
    ensures !IsObject(rule) ==> PermissionOf(rule) == SENTINEL
  {
  }

  /** The refused keys of one kind: a key that addresses nothing is passed over. */
  method RefusedOf(kind: Kind, keys: seq<string>, idx: Index, everywhere: bool, cache: PermitCache, number: NumberReader)
    returns (refused: seq<string>)
    requires cache.Valid() && everywhere == AnyDenied(idx.docWide, cache.grants, cache.uid)
    modifies cache
    ensures cache.Valid() && refused == BlockedKeys(TargetsOf(kind, keys, number), idx, cache.grants, cache.uid)
  {
    hide Blocks, TargetOf, AnyDenied;
    refused := [];
    for i := 0 to |keys|
      invariant cache.Valid() && refused == BlockedKeys(TargetsOf(kind, keys[..i], number), idx, cache.grants, cache.uid)
    {
      var t := TargetOf(kind, keys[i], number);
      assert keys[..i + 1][..i] == keys[..i];
      LastTarget(TargetsOf(kind, keys[..i], number), (keys[i], t), idx, cache.grants, cache.uid);
      if t.Some? {
        var blocked := cache.Blocked(idx, everywhere, t.value);
        if blocked {
          refused := refused + [keys[i]];
        }
      }
    }
    assert keys[..|keys|] == keys;
  }

  lemma LastTarget(ts: seq<(string, Option<Target>)>, last: (string, Option<Target>), idx: Index, grants: map<string, Val>, uid: string)
    ensures BlockedKeys(ts + [last], idx, grants, uid)
         == var front := BlockedKeys(ts, idx, grants, uid);
            if last.1.Some? && Blocks(idx, grants, uid, last.1.value) then front + [last.0] else front
  {
    hide Blocks;
    assert (ts + [last])[..|ts + [last]| - 1] == ts;
  }

  /** The keys of a batch the guard refuses, as the specification has it. */
  ghost function RefusedKeys(ts: seq<(string, Option<Target>)>, rules: map<string, Val>, grants: map<string, Val>, uid: string): seq<string> {
    if ts == [] then []
    else
      var front, last := RefusedKeys(ts[..|ts| - 1], rules, grants, uid), ts[|ts| - 1];
      if last.1.Some? && Refused(rules, grants, uid, last.1.value) then front + [last.0] else front
  }

  lemma {:induction false} BlockedIsRefused(ts: seq<(string, Option<Target>)>, rules: map<string, Val>, keys: seq<string>, grants: map<string, Val>, uid: string)
    requires Elements(keys) == rules.Keys
    requires forall x :: x in ts && x.1.Some? ==> Regular(x.1.value)
    ensures BlockedKeys(ts, IndexOfRules(rules, keys), grants, uid) == RefusedKeys(ts, rules, grants, uid)
  {
    hide Blocks, Refused, IndexOfRules, Regular, Elements;
    if ts != [] {
      assert forall x :: x in ts[..|ts| - 1] ==> x in ts;
      var last := ts[|ts| - 1];
      assert last in ts;
      BlockedIsRefused(ts[..|ts| - 1], rules, keys, grants, uid);
      if last.1.Some? {
        IndexRefines(rules, keys, grants, uid, last.1.value);
      }
    }
  }

  ghost predicate Enumerates(keys: seq<string>, rules: map<string, Val>) {
    Distinct(keys) && Elements(keys) == rules.Keys
  }

  /** Every key of an accepted batch addresses something, and no block is inverted. */
  ghost predicate RegularBatch(b: Batch, number: NumberReader) {
    forall x :: x in Targets(b, number) && x.1.Some? ==> Regular(x.1.value)
  }

  lemma NothingRefused(ts: seq<(string, Option<Target>)>, grants: map<string, Val>, uid: string)
    ensures BlockedKeys(ts, Index(map[], []), grants, uid) == []
  {
    if ts != [] {
      NothingRefused(ts[..|ts| - 1], grants, uid);
    }
  }

  /**
   * `assertSheetWriteAllowed`: the list of refused keys, empty when the write may proceed. On a
   * regular batch it is exactly the keys the specification refuses, whatever the enumeration.
   */
  method AssertSheetWriteAllowed(rules: map<string, Val>, grants: map<string, Val>, b: Batch, uid: string, isAdmin: bool, number: NumberReader)
    returns (refused: seq<string>)
    ensures isAdmin ==> refused == []
    ensures !isAdmin ==>
              exists keys :: Enumerates(keys, rules) && refused == BlockedKeys(Targets(b, number), IndexOfRules(rules, keys), grants, uid)
    ensures !isAdmin && RegularBatch(b, number) ==> refused == RefusedKeys(Targets(b, number), rules, grants, uid)
  {
    hide IndexOfRules, AddRule, Blocks, BlockedKeys, TargetsOf, Elements, Distinct, Refused, RefusedKeys, Regular;
    if isAdmin {
      return [];
    }
    var keys := Enumerate(rules.Keys);
    if RegularBatch(b, number) {
      BlockedIsRefused(Targets(b, number), rules, keys, grants, uid);
    }
    if b == Batch([], [], [], []) {
      NoTargets(number, IndexOfRules(rules, keys), grants, uid);
      return [];
    }
    if rules == map[] {
      NoRules(rules, keys);
      NothingRefused(Targets(b, number), grants, uid);
      return [];
    }
    var idx := BuildIndex(rules, keys);
    if idx.bySheet == map[] && idx.docWide == [] {
      NothingRefused(Targets(b, number), grants, uid);
      return [];
    }
    var cache := new PermitCache(grants, uid);
    var everywhere := cache.SomeDenied(idx.docWide);
    var cells := RefusedOf(CellKey, b.cells, idx, everywhere, cache, number);
    var dims := RefusedOf(DimKey, b.dims, idx, everywhere, cache, number);
    var merges := RefusedOf(MergeKey, b.merges, idx, everywhere, cache, number);
    var tabs := RefusedOf(TabKey, b.tabs, idx, everywhere, cache, number);
    refused := cells + dims + merges + tabs;
    FourPasses(TargetsOf(CellKey, b.cells, number), TargetsOf(DimKey, b.dims, number),
               TargetsOf(MergeKey, b.merges, number), TargetsOf(TabKey, b.tabs, number), idx, grants, uid);
  }

  method BuildIndex(rules: map<string, Val>, keys: seq<string>) returns (idx: Index)
    requires Elements(keys) == rules.Keys
    ensures idx == IndexOfRules(rules, keys)
  {
    hide AddRule;
    assert forall key :: key in keys ==> key in Elements(keys);
    idx := Index(map[], []);
    for i := 0 to |keys|
      invariant idx == IndexOfRules(rules, keys[..i])
    {
      assert keys[..i + 1][..i] == keys[..i];
      idx := IndexRule(idx, keys[i], rules[keys[i]]);
    }
    assert keys[..|keys|] == keys;
  }

  lemma NoTargets(number: NumberReader, idx: Index, grants: map<string, Val>, uid: string)
    ensures BlockedKeys(Targets(Batch([], [], [], []), number), idx, grants, uid) == []
  {
  }

  lemma NoRules(rules: map<string, Val>, keys: seq<string>)
    requires rules == map[] && Elements(keys) == rules.Keys
    ensures IndexOfRules(rules, keys) == Index(map[], [])
  {
    NoElements(keys);
  }

  lemma FourPasses(cs: seq<(string, Option<Target>)>, ds: seq<(string, Option<Target>)>, ms: seq<(string, Option<Target>)>, ts: seq<(string, Option<Target>)>,
                   idx: Index, grants: map<string, Val>, uid: string)
    ensures BlockedKeys(cs + ds + ms + ts, idx, grants, uid)
         == BlockedKeys(cs, idx, grants, uid) + BlockedKeys(ds, idx, grants, uid)
            + BlockedKeys(ms, idx, grants, uid) + BlockedKeys(ts, idx, grants, uid)
  {
    hide BlockedKeys;
    BlockedConcat(cs, ds, idx, grants, uid);
    BlockedConcat(cs + ds, ms, idx, grants, uid);
    BlockedConcat(cs + ds + ms, ts, idx, grants, uid);
  }
}
