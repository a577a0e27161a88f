/**
 * The guard fails closed: which batches are regular, damage to a rule only widens what is
 * refused, the order of a rectangle's bounds is immaterial, and granting only narrows it.
 */
module GuardLaws {
  import opened Prelude
  import opened JsValues
  import opened Strings
  import opened SheetKeys
  import opened GuardSpec
  import opened SheetGuard

  // ----- accepted batches -----

  predicate AcceptedKey(kind: Kind, key: string) {
    match kind
    case CellKey => ValidCellKey(key)
    case DimKey => ValidDimKey(key)
    case MergeKey => ValidMergeKey(key)
    case TabKey => ValidTabKey(key)
  }

  /** Every key has the shape its contract asks for, as the batch validators check. */
  predicate AcceptedKeys(b: Batch) {
    && (forall key :: key in b.cells ==> AcceptedKey(CellKey, key))
    && (forall key :: key in b.dims ==> AcceptedKey(DimKey, key))
    && (forall key :: key in b.merges ==> AcceptedKey(MergeKey, key))
    && (forall key :: key in b.tabs ==> AcceptedKey(TabKey, key))
  }

  predicate OrderedMerge(key: string, number: NumberReader) {
    var t := MergeTarget(key, number);
    t.Some? ==> t.value.sr <= t.value.er && t.value.sc <= t.value.ec
  }

  lemma AcceptedAddresses(kind: Kind, key: string, number: NumberReader)
    requires AcceptedKey(kind, key) && ReadsDecimals(number) && (kind == MergeKey ==> OrderedMerge(key, number))
    ensures TargetOf(kind, key, number).Some? && Regular(TargetOf(kind, key, number).value)
  {
    KindsOfTargets(key, number);
    hide ValidCellKey, ValidDimKey, ValidMergeKey, ValidTabKey, CellTarget, DimTarget, MergeTarget, ReadsDecimals;
    match kind
    case CellKey => ValidCellAddresses(key, number);
    case DimKey => ValidDimAddresses(key, number);
    case MergeKey => ValidMergeAddresses(key, number);
    case TabKey =>
  }

  lemma {:induction false} KindIsRegular(kind: Kind, keys: seq<string>, number: NumberReader)
    requires ReadsDecimals(number) && forall key :: key in keys ==> AcceptedKey(kind, key)
    requires kind == MergeKey ==> forall key :: key in keys ==> OrderedMerge(key, number)
    ensures forall x :: x in TargetsOf(kind, keys, number) ==> x.1.Some? && Regular(x.1.value)
  {
    hide TargetOf, AcceptedKey, OrderedMerge, Regular, ReadsDecimals;
    if keys != [] {
      assert keys[|keys| - 1] in keys && forall key :: key in keys[..|keys| - 1] ==> key in keys;
      KindIsRegular(kind, keys[..|keys| - 1], number);
      AcceptedAddresses(kind, keys[|keys| - 1], number);
    }
  }

  /** An accepted batch is regular unless it deletes a merge under an inverted key, which no sheet holds. */
  lemma AcceptedIsRegular(b: Batch, number: NumberReader)
    requires AcceptedKeys(b) && ReadsDecimals(number) && forall key :: key in b.merges ==> OrderedMerge(key, number)
    ensures RegularBatch(b, number)
    ensures forall x :: x in Targets(b, number) ==> x.1.Some?
  {
    KindIsRegular(CellKey, b.cells, number);
    KindIsRegular(DimKey, b.dims, number);
    KindIsRegular(MergeKey, b.merges, number);
    KindIsRegular(TabKey, b.tabs, number);
    hide TargetsOf, Regular, ReadsDecimals, AcceptedKey, OrderedMerge;
  }

  lemma KindsOfTargets(key: string, number: NumberReader)
    ensures CellTarget(key, number).Some? ==> CellTarget(key, number).value.CellAt?
    ensures DimTarget(key, number).Some? ==> !DimTarget(key, number).value.Block?
    ensures MergeTarget(key, number).Some? ==> MergeTarget(key, number).value.Block?
  {
    hide IndexOf, LastIndexOf, Split;
  }

  /**
   * For inverted corners the code's test is not the meeting of two sets of cells: the block has
   * no cell, yet it is refused next to one rectangle and let through over another.
   */
  lemma InvertedBlocks(sheet: string)
    ensures var t := Block(sheet, 5, 0, 3, 0);
            && (forall c :: !Denotes(t, c))
            && Touches(Rect(0, 0, 9, 9), t)
            && !Touches(Rect(4, 0, 4, 0), t)
  {
  }

  /** The code answers as the specification does, whatever the rules, their enumeration and the writer. */
  ghost predicate AnswersRight(t: Target) {
    forall rules: map<string, Val>, keys: seq<string>, grants: map<string, Val>, uid: string :: Elements(keys) == rules.Keys ==>
      (Blocks(IndexOfRules(rules, keys), grants, uid, t) <==> Refused(rules, grants, uid, t))
  }

  /** Against a rule for the whole document that nobody is granted, every write is blocked. */
  lemma LockedDocument(t: Target)
    ensures var rules: map<string, Val> := map["" := Null];
            Elements([""]) == rules.Keys && Blocks(IndexOfRules(rules, [""]), map[], "", t)
  {
    var rules: map<string, Val> := map["" := Null];
    assert Elements([""]) == rules.Keys by {
      ElementsCons("", []);
      NoElements([]);
    }
    assert [""][..0] == [];
    assert ExtentOf("", Null).Document?;
    hide Permits, Blocks, PermissionOf, ExtentOf;
    AddRuleBlocks(Index(map[], []), "", Null, map[], "", t);
    assert Hits(ExtentOf("", Null), t);
    NobodyGranted("", PermissionOf(Null));
  }

  lemma NobodyGranted(uid: string, permission: string)
    ensures !Permits(map[], uid, permission)
  {
  }

  lemma NeverRefused(t: Target, rules: map<string, Val>, grants: map<string, Val>, uid: string)
    requires Addresses(Some(t)) && !Regular(t)
    ensures !Refused(rules, grants, uid, t)
  {
    hide ExtentOf, PermissionOf, Permits, Guards;
    assert forall c :: !Denotes(t, c);
  }

  /** For one write, the answer is right exactly when its corners are in order. */
  lemma AgreesIffOrdered(t: Target)
    requires Addresses(Some(t))
    ensures AnswersRight(t) <==> (t.Block? ==> t.sr <= t.er && t.sc <= t.ec)
  {
    hide Blocks, IndexOfRules, Refused, Elements;
    if Regular(t) {
      forall rules: map<string, Val>, keys: seq<string>, grants: map<string, Val>, uid: string | Elements(keys) == rules.Keys
        ensures Blocks(IndexOfRules(rules, keys), grants, uid, t) <==> Refused(rules, grants, uid, t)
      {
        IndexRefines(rules, keys, grants, uid, t);
      }
    } else {
      LockedDocument(t);
      NeverRefused(t, map["" := Null], map[], "");
    }
  }

  /** The list of refused keys is the specified one, whatever the rules, their enumeration and the writer. */
  ghost predicate AnswersBatch(b: Batch, number: NumberReader) {
    forall rules: map<string, Val>, keys: seq<string>, grants: map<string, Val>, uid: string :: Elements(keys) == rules.Keys ==>
      BlockedKeys(Targets(b, number), IndexOfRules(rules, keys), grants, uid) == RefusedKeys(Targets(b, number), rules, grants, uid)
  }

  /** Where all targets are blocked and one is not refused, fewer keys are refused than blocked. */
  lemma {:induction false} FewerRefused(ts: seq<(string, Option<Target>)>, x: (string, Option<Target>), idx: Index, rules: map<string, Val>, grants: map<string, Val>, uid: string)
    requires forall y :: y in ts && y.1.Some? ==> Blocks(idx, grants, uid, y.1.value)
    ensures |RefusedKeys(ts, rules, grants, uid)| <= |BlockedKeys(ts, idx, grants, uid)|
    ensures x in ts && x.1.Some? && !Refused(rules, grants, uid, x.1.value) ==>
              |RefusedKeys(ts, rules, grants, uid)| < |BlockedKeys(ts, idx, grants, uid)|
  {
    hide Blocks, Refused;
    if ts != [] {
      var front, last := ts[..|ts| - 1], ts[|ts| - 1];
      assert last in ts && forall y :: y in ts <==> y in front || y == last;
      FewerRefused(front, x, idx, rules, grants, uid);
    }
  }

  lemma {:induction false} TargetIsListed(kind: Kind, keys: seq<string>, key: string, number: NumberReader)
    requires key in keys
    ensures (key, TargetOf(kind, key, number)) in TargetsOf(kind, keys, number)
  {
    hide TargetOf;
    if key != keys[|keys| - 1] {
      TargetIsListed(kind, keys[..|keys| - 1], key, number);
    }
  }

  lemma RegularIsExact(b: Batch, number: NumberReader)
    requires RegularBatch(b, number)
    ensures AnswersBatch(b, number)
  {
    hide Blocks, IndexOfRules, Refused, Elements, BlockedKeys, RefusedKeys, Targets, Regular;
    forall rules: map<string, Val>, keys: seq<string>, grants: map<string, Val>, uid: string | Elements(keys) == rules.Keys
      ensures BlockedKeys(Targets(b, number), IndexOfRules(rules, keys), grants, uid) == RefusedKeys(Targets(b, number), rules, grants, uid)
    {
      BlockedIsRefused(Targets(b, number), rules, keys, grants, uid);
    }
  }

  /** An accepted batch is answered right exactly when it names no merge by inverted corners. */
  lemma GuardIsExactIff(b: Batch, number: NumberReader)
    requires AcceptedKeys(b) && ReadsDecimals(number)
    ensures AnswersBatch(b, number) <==> forall key :: key in b.merges ==> OrderedMerge(key, number)
  {
    hide AnswersBatch, RegularBatch, AcceptedKey, OrderedMerge, ReadsDecimals;
    if forall key :: key in b.merges ==> OrderedMerge(key, number) {
      AcceptedIsRegular(b, number);
      RegularIsExact(b, number);
    } else {
      var key :| key in b.merges && !OrderedMerge(key, number);
      InvertedIsWrong(b, key, number);
    }
  }

  lemma InvertedTarget(b: Batch, key: string, number: NumberReader)
    requires key in b.merges && AcceptedKey(MergeKey, key) && ReadsDecimals(number) && !OrderedMerge(key, number)
    ensures (key, MergeTarget(key, number)) in Targets(b, number)
    ensures Addresses(MergeTarget(key, number)) && !Regular(MergeTarget(key, number).value)
  {
    hide MergeTarget, ValidMergeKey, ReadsDecimals, TargetsOf;
    ValidMergeAddresses(key, number);
    KindsOfTargets(key, number);
    TargetIsListed(MergeKey, b.merges, key, number);
  }

  lemma InvertedIsWrong(b: Batch, key: string, number: NumberReader)
    requires key in b.merges && AcceptedKey(MergeKey, key) && ReadsDecimals(number) && !OrderedMerge(key, number)
    ensures !AnswersBatch(b, number)
  {
    hide *;
    var rules: map<string, Val> := map["" := Null];
    var ts, x := Targets(b, number), (key, MergeTarget(key, number));
    InvertedTarget(b, key, number);
    AddressesSome(x.1);
    NeverRefused(x.1.value, rules, map[], "");
    forall y | y in ts && y.1.Some?
      ensures Blocks(IndexOfRules(rules, [""]), map[], "", y.1.value)
    {
      LockedDocument(y.1.value);
    }
    LockedDocument(x.1.value);
    FewerRefused(ts, x, IndexOfRules(rules, [""]), rules, map[], "");
    AnswersDiffer(b, number, rules, [""], map[], "");
  }

  lemma AddressesSome(t: Option<Target>)
    requires Addresses(t)
    ensures t.Some?
  {
  }

  lemma AnswersDiffer(b: Batch, number: NumberReader, rules: map<string, Val>, keys: seq<string>, grants: map<string, Val>, uid: string)
    requires Elements(keys) == rules.Keys
    requires |RefusedKeys(Targets(b, number), rules, grants, uid)| < |BlockedKeys(Targets(b, number), IndexOfRules(rules, keys), grants, uid)|
    ensures !AnswersBatch(b, number)
  {
    hide Elements, RefusedKeys, BlockedKeys, Targets, IndexOfRules;
  }

  // ----- damage only widens -----

  /** Everything the first extent guards, the second guards too. */
  ghost predicate Within(e: Extent, f: Extent) {
    forall c :: Guards(e, c) ==> Guards(f, c)
  }

  /** The ways in which a rule's value can become unreadable. */
  predicate Damaged(rule: Val, worse: Val) {
    || !IsObject(worse)
    || PermissionOf(worse) == SENTINEL
    || (PermissionOf(worse) == PermissionOf(rule) && Malformed(FieldVal(worse, "ranges")))
  }

  lemma ExtentIsOnSheet(key: string, rule: Val)
    ensures IndexOf(key, '!') <= 0 <==> ExtentOf(key, rule).Document?
    ensures IndexOf(key, '!') > 0 ==> !ExtentOf(key, rule).Document? && ExtentOf(key, rule).sheet == key[..IndexOf(key, '!')]
  {
    hide IndexOf, FieldVal, Malformed, ReadItems, PermissionOf;
  }

  lemma DamagedReachesFurther(key: string, rule: Val, worse: Val)
    requires Damaged(rule, worse)
    ensures Within(ExtentOf(key, rule), ExtentOf(key, worse))
  {
    ExtentIsOnSheet(key, rule);
    ExtentIsOnSheet(key, worse);
    DamagedIsLocked(key, rule, worse);
    hide ExtentOf, IndexOf, Damaged, Inside;
  }

  lemma DamagedIsLocked(key: string, rule: Val, worse: Val)
    requires Damaged(rule, worse)
    ensures !ExtentOf(key, worse).Areas?
  {
    hide IndexOf, Malformed, ReadItems;
  }

  /** A rule whose key no longer names a sheet reaches the whole document. */
  lemma LostSheetReachesFurther(key: string, lost: string, rule: Val)
    requires IndexOf(lost, '!') <= 0
    ensures Within(ExtentOf(key, rule), ExtentOf(lost, rule))
  {
    ExtentIsOnSheet(lost, rule);
    hide ExtentOf;
  }

  /** Every rule guards some cell. */
  lemma SomethingGuarded(key: string, rule: Val) returns (c: Cell)
    ensures Guards(ExtentOf(key, rule), c)
  {
    var e := ExtentOf(key, rule);
    c := Cell("", 0, 0);
    AreasAreRead(key, rule);
    AreasAreSome(key, rule);
    hide ExtentOf;
    match e
    case Document =>
    case WholeSheet(sheet) =>
      c := Cell(sheet, 0, 0);
    case Areas(sheet, rects) =>
      var rect := rects[0];
      assert rect in rects;
      c := Cell(sheet, Max(0, rect.startRow), Max(0, rect.startColumn));
      assert Inside(rect, c);
  }

  lemma AreasAreSome(key: string, rule: Val)
    ensures var e := ExtentOf(key, rule); e.Areas? ==> e.rects != []
  {
    hide IndexOf, FieldVal, PermissionOf, KindOf, Malformed, ReadItems;
  }

  /**
   * Damage to a rule's value never lets through a write it refused, exactly when it does not
   * hand a denied writer the rule: a granted sentinel would.
   */
  lemma DamageOnlyWidensIff(key: string, rule: Val, worse: Val, grants: map<string, Val>, uid: string)
    requires Damaged(rule, worse)
    ensures (forall t :: Refused(map[key := rule], grants, uid, t) ==> Refused(map[key := worse], grants, uid, t)) <==>
            (Permits(grants, uid, PermissionOf(rule)) || !Permits(grants, uid, PermissionOf(worse)))
  {
    var c := SomethingGuarded(key, rule);
    hide ExtentOf, PermissionOf, Permits, Damaged, Guards;
    var before, after := map[key := rule], map[key := worse];
    if !Permits(grants, uid, PermissionOf(rule)) && Permits(grants, uid, PermissionOf(worse)) {
      var t := CellAt(c.sheet, c.row, c.col);
      assert Denotes(t, c) && key in before;
      assert Refused(before, grants, uid, t);
      assert !Refused(after, grants, uid, t);
    } else {
      assert before[key := worse] == after;
      forall t | Refused(before, grants, uid, t)
        ensures Refused(after, grants, uid, t)
      {
        DamageWidens(before, key, worse, grants, uid, t);
      }
    }
  }

  /** One damaged value: whatever was refused still is, unless the damage hands the rule to the writer. */
  lemma DamageWidens(rules: map<string, Val>, key: string, worse: Val, grants: map<string, Val>, uid: string, t: Target)
    requires key in rules && Damaged(rules[key], worse) && Refused(rules, grants, uid, t)
    requires !Permits(grants, uid, PermissionOf(worse)) || Permits(grants, uid, PermissionOf(rules[key]))
    ensures Refused(rules[key := worse], grants, uid, t)
  {
    DamagedReachesFurther(key, rules[key], worse);
    hide ExtentOf, PermissionOf, Permits, Guards, Denotes, Damaged;
    var k, c :| k in rules && Denotes(t, c) && Guards(ExtentOf(k, rules[k]), c) && !Permits(grants, uid, PermissionOf(rules[k]));
    var after := rules[key := worse];
    assert Guards(ExtentOf(k, after[k]), c) && !Permits(grants, uid, PermissionOf(after[k]));
  }

  /** A permission the damage leaves in place never hands the rule over; the sentinel does only when it is granted. */
  lemma DamageKeepsDenying(rule: Val, worse: Val, grants: map<string, Val>, uid: string)
    requires Damaged(rule, worse) && !Permits(grants, uid, SENTINEL) && !Permits(grants, uid, PermissionOf(rule))
    ensures !Permits(grants, uid, PermissionOf(worse))
  {
    UnreadableIsSentinel(worse);
    hide PermissionOf, Permits, Malformed;
  }

  /** A rule moved under a key that names no sheet still refuses all it did. */
  lemma LostSheetWidens(rules: map<string, Val>, key: string, lost: string, grants: map<string, Val>, uid: string, t: Target)
    requires key in rules && lost !in rules && IndexOf(lost, '!') <= 0 && Refused(rules, grants, uid, t)
    ensures Refused((rules - {key})[lost := rules[key]], grants, uid, t)
  {
    LostSheetReachesFurther(key, lost, rules[key]);
    hide ExtentOf, PermissionOf, Permits, Guards, Denotes, IndexOf;
    var k, c :| k in rules && Denotes(t, c) && Guards(ExtentOf(k, rules[k]), c) && !Permits(grants, uid, PermissionOf(rules[k]));
    var after := (rules - {key})[lost := rules[key]];
    var now := if k == key then lost else k;
    assert now in after && Guards(ExtentOf(now, after[now]), c) && !Permits(grants, uid, PermissionOf(after[now]));
  }

  // ----- bounds in any order -----

  /** The same rectangle with its rows or its columns named the other way round. */
  predicate Swapped(r: Val, s: Val) {
    && FourIntegers(r) && FourIntegers(s)
    && ((FieldVal(s, "startRow") == FieldVal(r, "startRow") && FieldVal(s, "endRow") == FieldVal(r, "endRow"))
        || (FieldVal(s, "startRow") == FieldVal(r, "endRow") && FieldVal(s, "endRow") == FieldVal(r, "startRow")))
    && ((FieldVal(s, "startColumn") == FieldVal(r, "startColumn") && FieldVal(s, "endColumn") == FieldVal(r, "endColumn"))
        || (FieldVal(s, "startColumn") == FieldVal(r, "endColumn") && FieldVal(s, "endColumn") == FieldVal(r, "startColumn")))
  }

  lemma SwappedReadsAlike(r: Val, s: Val)
    requires Swapped(r, s)
    ensures ReadRect(r) == ReadRect(s)
  {
    hide FieldVal;
  }

  lemma {:induction false} SwappedItemsReadAlike(xs: seq<Val>, ys: seq<Val>)
    requires |xs| == |ys| && forall i :: 0 <= i < |xs| ==> xs[i] == ys[i] || Swapped(xs[i], ys[i])
    ensures ReadItems(xs) == ReadItems(ys)
    ensures Malformed(Arr(xs)) <==> Malformed(Arr(ys))
  {
    hide *;
    if xs == [] {
      assert ys == [];
    } else {
      var n := |xs| - 1;
      SwappedItemsReadAlike(xs[..n], ys[..n]);
      assert xs == xs[..n] + [xs[n]] && ys == ys[..n] + [ys[n]];
      ItemsSnoc(xs[..n], xs[n]);
      ItemsSnoc(ys[..n], ys[n]);
      if xs[n] != ys[n] {
        SwappedReadsAlike(xs[n], ys[n]);
      }
    }
  }

  /** Swapping bounds of any rectangles of a rule changes no decision. */
  lemma SwapChangesNothing(rules: map<string, Val>, key: string, other: Val, grants: map<string, Val>, uid: string, t: Target)
    requires key in rules && IsObject(other) && IsObject(rules[key])
    requires FieldVal(other, "permissionId") == FieldVal(rules[key], "permissionId")
    requires var xs, ys := FieldVal(rules[key], "ranges"), FieldVal(other, "ranges");
             && xs.Arr? && ys.Arr? && |xs.items| == |ys.items|
             && forall i :: 0 <= i < |xs.items| ==> xs.items[i] == ys.items[i] || Swapped(xs.items[i], ys.items[i])
    ensures Refused(rules[key := other], grants, uid, t) <==> Refused(rules, grants, uid, t)
  {
    SwappedItemsReadAlike(FieldVal(rules[key], "ranges").items, FieldVal(other, "ranges").items);
    SameExtent(key, rules[key], other);
    hide ExtentOf, PermissionOf, Permits, Guards, Denotes, FieldVal, Swapped;
    SameRefusals(rules, key, other, grants, uid, t);
    assert rules[key := other][key := rules[key]] == rules;
    SameRefusals(rules[key := other], key, rules[key], grants, uid, t);
  }

  lemma SameExtent(key: string, rule: Val, other: Val)
    requires IsObject(other) && IsObject(rule)
    requires FieldVal(other, "permissionId") == FieldVal(rule, "permissionId")
    requires var xs, ys := FieldVal(rule, "ranges"), FieldVal(other, "ranges");
             xs.Arr? && ys.Arr? && ReadItems(xs.items) == ReadItems(ys.items) && (Malformed(Arr(xs.items)) <==> Malformed(Arr(ys.items)))
    ensures ExtentOf(key, rule) == ExtentOf(key, other) && PermissionOf(rule) == PermissionOf(other)
  {
    hide IndexOf, FieldVal, Malformed, ReadItems;
  }

  lemma SameRefusals(rules: map<string, Val>, key: string, other: Val, grants: map<string, Val>, uid: string, t: Target)
    requires key in rules && ExtentOf(key, rules[key]) == ExtentOf(key, other) && PermissionOf(rules[key]) == PermissionOf(other)
    ensures Refused(rules, grants, uid, t) ==> Refused(rules[key := other], grants, uid, t)
  {
    hide ExtentOf, PermissionOf, Permits, Guards, Denotes;
    if Refused(rules, grants, uid, t) {
      var k, c :| k in rules && Denotes(t, c) && Guards(ExtentOf(k, rules[k]), c) && !Permits(grants, uid, PermissionOf(rules[k]));
      var after := rules[key := other];
      assert Guards(ExtentOf(k, after[k]), c) && !Permits(grants, uid, PermissionOf(after[k]));
    }
  }

  // ----- granting only narrows -----

  /** The grants with one more writer on one allow list; nothing but lists changes. */
  predicate Grows(grants: map<string, Val>, more: map<string, Val>) {
    forall p :: p in grants ==> forall v :: v in AllowList(grants, p) ==> v in AllowList(more, p)
  }

  lemma GrantingNarrows(rules: map<string, Val>, grants: map<string, Val>, more: map<string, Val>, uid: string, t: Target)
    requires Grows(grants, more) && Refused(rules, more, uid, t)
    ensures Refused(rules, grants, uid, t)
  {
    hide ExtentOf, PermissionOf, Guards, Denotes;
    var k, c :| k in rules && Denotes(t, c) && Guards(ExtentOf(k, rules[k]), c) && !Permits(more, uid, PermissionOf(rules[k]));
    assert !Permits(grants, uid, PermissionOf(rules[k]));
  }
}
