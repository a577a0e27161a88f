/**
 * Sheet keys and protection rules from how they are written: what each key addresses, which
 * keys the contracts admit, and which cells a rule guards for whom.
 */
module SheetText {
  import opened Prelude
  import opened SeqFacts
  import opened JsValues
  import opened Strings
  import opened SheetKeys
  import opened GuardSpec
  import opened SheetGuard
  import opened GuardLaws
  import SheetContracts

  // ----- strings put together -----

  function Joined(a: string, c: char, b: string): string {
    a + [c] + b
  }

  lemma {:induction false} JoinedFirst(a: string, c: char, b: string)
    requires c !in a
    ensures IndexOf(Joined(a, c, b), c) == |a|
  {
    var s := Joined(a, c, b);
    if a != "" {
      assert s[0] == a[0] && s[1..] == Joined(a[1..], c, b);
      JoinedFirst(a[1..], c, b);
    }
  }

  lemma {:induction false} JoinedLast(a: string, c: char, b: string)
    requires c !in b
    ensures LastIndexOf(Joined(a, c, b), c) == |a|
  {
    var s := Joined(a, c, b);
    if b == "" {
      assert s[|s| - 1] == c;
    } else {
      assert s[|s| - 1] == b[|b| - 1] && s[..|s| - 1] == Joined(a, c, b[..|b| - 1]);
      JoinedLast(a, c, b[..|b| - 1]);
    }
  }

  lemma JoinedParts(a: string, c: char, b: string)
    ensures var s := Joined(a, c, b);
            |s| == |a| + 1 + |b| && s[..|a|] == a && s[|a|] == c && s[|a| + 1..] == b
  {
  }

  lemma JoinedAgain(s: string, i: nat)
    requires i < |s|
    ensures s == Joined(s[..i], s[i], s[i + 1..])
  {
  }

  lemma JoinedSplit(a: string, c: char, b: string)
    requires c !in a
    ensures Split(Joined(a, c, b), c) == [a] + Split(b, c)
  {
    JoinedFirst(a, c, b);
    JoinedParts(a, c, b);
    hide IndexOf, Joined;
  }

  lemma Unsplit(s: string, c: char)
    requires c !in s
    ensures Split(s, c) == [s]
  {
    hide IndexOf;
  }

  /** One to seven decimal digits. */
  predicate Number7(s: string) {
    1 <= |s| <= 7 && forall i :: 0 <= i < |s| ==> s[i] in "0123456789"
  }

  lemma DigitIs(c: char)
    ensures c in "0123456789" <==> '0' <= c <= '9'
  {
  }

  lemma Number7Is(s: string)
    ensures Number7(s) <==> Coordinate(s)
    ensures Number7(s) ==> ':' !in s && '!' !in s
    ensures Number7(s) ==> forall i :: 0 <= i < |s| ==> '0' <= s[i] <= '9'
  {
    forall c: char
      ensures c in "0123456789" <==> '0' <= c <= '9'
    {
      DigitIs(c);
    }
  }

  lemma NumberReads(s: string, number: NumberReader)
    requires Number7(s) && ReadsDecimals(number)
    ensures Coordinate(s) && number(s) == Some(Value(s))
  {
    Number7Is(s);
    hide Number7, Digits, Value;
  }

  // ----- what a written key addresses -----

  /** `sheet!row:col` */
  function CellKeyText(sheet: string, row: string, col: string): string {
    Joined(sheet, '!', Joined(row, ':', col))
  }

  lemma CellTargetOf(key: string, bang: int, parts: seq<string>, number: NumberReader, row: int, col: int)
    requires IndexOf(key, '!') == bang >= 0 && Split(key[bang + 1..], ':') == parts && |parts| == 2
    requires number(parts[0]) == Some(row) && number(parts[1]) == Some(col)
    ensures CellTarget(key, number) == Some(CellAt(key[..bang], row, col))
  {
    hide IndexOf, Split;
  }

  lemma SplitPair(a: string, c: char, b: string)
    requires c !in a && c !in b
    ensures Split(Joined(a, c, b), c) == [a, b]
  {
    hide *;
    JoinedSplit(a, c, b);
    Unsplit(b, c);
    assert [a] + [b] == [a, b];
  }

  /** Of a cell key the row comes first. */
  lemma CellKeyReads(sheet: string, row: string, col: string, number: NumberReader)
    requires '!' !in sheet && Number7(row) && Number7(col) && ReadsDecimals(number)
    ensures CellTarget(CellKeyText(sheet, row, col), number) == Some(CellAt(sheet, Value(row), Value(col)))
  {
    var rest, key := Joined(row, ':', col), CellKeyText(sheet, row, col);
    assert key == Joined(sheet, '!', rest);
    hide *;
    Number7Is(row);
    Number7Is(col);
    NumberReads(row, number);
    NumberReads(col, number);
    JoinedFirst(sheet, '!', rest);
    JoinedParts(sheet, '!', rest);
    SplitPair(row, ':', col);
    CellTargetOf(key, |sheet|, [row, col], number, Value(row), Value(col));
  }

  function LineKeyText(sheet: string, axis: char, n: string): string {
    Joined(sheet, ':', [axis] + n)
  }

  lemma LineTargetOf(sheet: string, axis: char, n: string, part: string, number: NumberReader, idx: int)
    requires part == [axis] + n && (axis == 'c' || axis == 'r') && number(n) == Some(idx)
    ensures LineTarget(sheet, part, number) == Some(if axis == 'c' then Column(sheet, idx) else Row(sheet, idx))
  {
    assert part[1..] == n;
  }

  lemma DimTargetOf(key: string, colon: int, number: NumberReader)
    requires LastIndexOf(key, ':') == colon
    ensures DimTarget(key, number) == if colon < 0 then LineTarget("default", key, number) else LineTarget(key[..colon], key[colon + 1..], number)
  {
    hide LastIndexOf, LineTarget;
  }

  /** `sheet:c<n>` is a column, `sheet:r<n>` a row; without a sheet they are the default sheet's. */
  lemma LineKeyReads(sheet: string, axis: char, n: string, number: NumberReader)
    requires (axis == 'c' || axis == 'r') && Number7(n) && ReadsDecimals(number)
    ensures DimTarget(LineKeyText(sheet, axis, n), number) == Some(if axis == 'c' then Column(sheet, Value(n)) else Row(sheet, Value(n)))
    ensures DimTarget([axis] + n, number) == Some(if axis == 'c' then Column("default", Value(n)) else Row("default", Value(n)))
  {
    var part := [axis] + n;
    var key := LineKeyText(sheet, axis, n);
    assert key == Joined(sheet, ':', part);
    hide *;
    Number7Is(n);
    NumberReads(n, number);
    assert ':' !in part;
    JoinedLast(sheet, ':', part);
    JoinedParts(sheet, ':', part);
    DimTargetOf(key, |sheet|, number);
    assert LastIndexOf(part, ':') < 0;
    DimTargetOf(part, LastIndexOf(part, ':'), number);
    LineTargetOf(sheet, axis, n, part, number, Value(n));
    LineTargetOf("default", axis, n, part, number, Value(n));
  }

  /** `sheet:sr:sc:er:ec` */
  function MergeKeyText(sheet: string, sr: string, sc: string, er: string, ec: string): string {
    Joined(sheet, ':', Joined(sr, ':', Joined(sc, ':', Joined(er, ':', ec))))
  }

  lemma MergeParts(sheet: string, sr: string, sc: string, er: string, ec: string)
    requires ':' !in sheet && ':' !in sr && ':' !in sc && ':' !in er && ':' !in ec
    ensures Split(MergeKeyText(sheet, sr, sc, er, ec), ':') == [sheet, sr, sc, er, ec]
  {
    var r3 := Joined(er, ':', ec);
    var r2 := Joined(sc, ':', r3);
    var r1 := Joined(sr, ':', r2);
    assert MergeKeyText(sheet, sr, sc, er, ec) == Joined(sheet, ':', r1);
    hide *;
    SplitPair(er, ':', ec);
    JoinedSplit(sc, ':', r3);
    JoinedSplit(sr, ':', r2);
    JoinedSplit(sheet, ':', r1);
    FiveInAll(sheet, sr, sc, er, ec);
  }

  lemma FiveInAll<T>(a: T, b: T, c: T, d: T, e: T)
    ensures [a] + ([b] + ([c] + [d, e])) == [a, b, c, d, e]
  {
  }

  lemma MergeTargetOf(key: string, parts: seq<string>, number: NumberReader)
    requires Split(key, ':') == parts && |parts| == 5 && forall i :: 1 <= i < 5 ==> number(parts[i]).Some?
    ensures MergeTarget(key, number)
         == Some(Block(parts[0], number(parts[1]).value, number(parts[2]).value, number(parts[3]).value, number(parts[4]).value))
  {
    hide Split;
  }

  /** Of a merge key the start comes before the end, and the row before the column. */
  lemma MergeKeyReads(sheet: string, sr: string, sc: string, er: string, ec: string, number: NumberReader)
    requires ':' !in sheet && Number7(sr) && Number7(sc) && Number7(er) && Number7(ec) && ReadsDecimals(number)
    ensures MergeTarget(MergeKeyText(sheet, sr, sc, er, ec), number) == Some(Block(sheet, Value(sr), Value(sc), Value(er), Value(ec)))
  {
    hide *;
    Number7Is(sr);
    Number7Is(sc);
    Number7Is(er);
    Number7Is(ec);
    NumberReads(sr, number);
    NumberReads(sc, number);
    NumberReads(er, number);
    NumberReads(ec, number);
    MergeParts(sheet, sr, sc, er, ec);
    MergeTargetOf(MergeKeyText(sheet, sr, sc, er, ec), [sheet, sr, sc, er, ec], number);
  }

  // ----- which keys the contracts admit -----

  predicate SheetName(sheet: string, apart: char) {
    1 <= |sheet| <= 64 && apart !in sheet
  }

  predicate IsCellKey(key: string, sheet: string, row: string, col: string) {
    SheetName(sheet, '!') && Number7(row) && Number7(col) && key == CellKeyText(sheet, row, col)
  }

  lemma ValidCellKeyParts(key: string, bang: int, colon: int)
    requires IndexOf(key, '!') == bang >= 0 && IndexOf(key[bang + 1..], ':') == colon
    ensures ValidCellKey(key) <==> 1 <= bang <= 64 && colon >= 0 && Coordinate(key[bang + 1..][..colon]) && Coordinate(key[bang + 1..][colon + 1..])
  {
    hide IndexOf, Coordinate;
  }

  lemma BangNeeded(key: string)
    requires IndexOf(key, '!') < 0
    ensures !ValidCellKey(key) && !SheetContracts.IdKey(key)
  {
    hide IndexOf;
  }

  /** Cell keys are exactly a sheet name without `!`, then `!row:col`. */
  lemma CellKeysAre(key: string)
    ensures ValidCellKey(key) <==> exists sheet, row, col :: IsCellKey(key, sheet, row, col)
  {
    hide IndexOf, ValidCellKey, Number7, Coordinate, IsCellKey;
    var bang := IndexOf(key, '!');
    if ValidCellKey(key) {
      if bang < 0 {
        BangNeeded(key);
      } else {
        CellKeyOpens(key);
      }
    }
    if sheet, row, col :| IsCellKey(key, sheet, row, col) {
      CellKeyHolds(key, sheet, row, col);
    }
  }

  lemma CellKeyOpens(key: string)
    requires ValidCellKey(key) && IndexOf(key, '!') >= 0
    ensures exists sheet, row, col :: IsCellKey(key, sheet, row, col)
  {
    hide IndexOf, ValidCellKey, Number7, Coordinate, Joined;
    var bang := IndexOf(key, '!');
    var rest := key[bang + 1..];
    var colon := IndexOf(rest, ':');
    ValidCellKeyParts(key, bang, colon);
    JoinedAgain(key, bang);
    JoinedAgain(rest, colon);
    Number7Is(rest[..colon]);
    Number7Is(rest[colon + 1..]);
    assert IsCellKey(key, key[..bang], rest[..colon], rest[colon + 1..]);
  }

  lemma CellKeyHolds(key: string, sheet: string, row: string, col: string)
    requires IsCellKey(key, sheet, row, col)
    ensures ValidCellKey(key)
  {
    hide IndexOf, ValidCellKey, Number7, Coordinate, Joined;
    var rest := Joined(row, ':', col);
    Number7Is(row);
    Number7Is(col);
    JoinedFirst(sheet, '!', rest);
    JoinedFirst(row, ':', col);
    JoinedParts(sheet, '!', rest);
    JoinedParts(row, ':', col);
    ValidCellKeyParts(key, |sheet|, |row|);
  }

  predicate IsDimKey(key: string, sheet: string, axis: char, n: string) {
    Number7(n) && (axis == 'c' || axis == 'r')
    && (if sheet == "" then key == [axis] + n else SheetName(sheet, ':') && key == LineKeyText(sheet, axis, n))
  }

  lemma ValidDimPartIs(part: string)
    ensures ValidDimPart(part) <==> part != "" && (part[0] == 'c' || part[0] == 'r') && Number7(part[1..])
    ensures ValidDimPart(part) ==> ':' !in part
  {
    if part != "" {
      Number7Is(part[1..]);
      assert part == [part[0]] + part[1..];
    }
    hide Number7, Coordinate;
  }

  lemma ValidDimKeyParts(key: string, colon: int)
    requires IndexOf(key, ':') == colon
    ensures ValidDimKey(key) <==> if colon < 0 then ValidDimPart(key) else 1 <= colon <= 64 && ValidDimPart(key[colon + 1..])
  {
    hide IndexOf, ValidDimPart;
  }

  /** Dimension keys are exactly `c<n>` or `r<n>`, perhaps after a sheet name without `:`. */
  lemma DimKeysAre(key: string)
    ensures ValidDimKey(key) <==> exists sheet, axis, n :: IsDimKey(key, sheet, axis, n)
  {
    hide IndexOf, ValidDimKey, IsDimKey;
    if ValidDimKey(key) {
      DimKeyOpens(key);
    }
    if sheet, axis, n :| IsDimKey(key, sheet, axis, n) {
      DimKeyHolds(key, sheet, axis, n);
    }
  }

  lemma DimKeyOpens(key: string)
    requires ValidDimKey(key)
    ensures exists sheet, axis, n :: IsDimKey(key, sheet, axis, n)
  {
    hide IndexOf, ValidDimKey, ValidDimPart, Number7, Joined;
    var colon := IndexOf(key, ':');
    ValidDimKeyParts(key, colon);
    var sheet, part := if colon < 0 then "" else key[..colon], if colon < 0 then key else key[colon + 1..];
    ValidDimPartIs(part);
    assert part == [part[0]] + part[1..];
    if colon >= 0 {
      JoinedAgain(key, colon);
    }
    assert IsDimKey(key, sheet, part[0], part[1..]);
  }

  lemma DimKeyHolds(key: string, sheet: string, axis: char, n: string)
    requires IsDimKey(key, sheet, axis, n)
    ensures ValidDimKey(key)
  {
    hide IndexOf, ValidDimKey, ValidDimPart, Number7, Joined;
    var part := [axis] + n;
    assert part[1..] == n;
    ValidDimPartIs(part);
    if sheet == "" {
      ValidDimKeyParts(key, IndexOf(key, ':'));
    } else {
      JoinedFirst(sheet, ':', part);
      JoinedParts(sheet, ':', part);
      ValidDimKeyParts(key, |sheet|);
    }
  }

  predicate IsMergeKey(key: string, sheet: string, sr: string, sc: string, er: string, ec: string) {
    SheetName(sheet, ':') && Number7(sr) && Number7(sc) && Number7(er) && Number7(ec) && key == MergeKeyText(sheet, sr, sc, er, ec)
  }

  lemma SplitOpens(s: string, c: char) returns (head: string, tail: string)
    requires |Split(s, c)| > 1
    ensures c !in head && s == Joined(head, c, tail) && Split(s, c)[0] == head && Split(s, c)[1..] == Split(tail, c)
  {
    hide IndexOf;
    var i := IndexOf(s, c);
    head, tail := s[..i], s[i + 1..];
    JoinedAgain(s, i);
  }

  lemma SplitLast(s: string, c: char)
    requires |Split(s, c)| == 1
    ensures c !in s && Split(s, c) == [s]
  {
    hide IndexOf;
  }

  /** Merge keys are exactly a sheet name without `:` and four numbers. */
  lemma MergeKeysAre(key: string)
    ensures ValidMergeKey(key) <==> exists sheet, sr, sc, er, ec :: IsMergeKey(key, sheet, sr, sc, er, ec)
  {
    hide ValidMergeKey, IsMergeKey;
    if ValidMergeKey(key) {
      MergeKeyOpens(key);
    }
    if sheet, sr, sc, er, ec :| IsMergeKey(key, sheet, sr, sc, er, ec) {
      MergeKeyHolds(key, sheet, sr, sc, er, ec);
    }
  }

  lemma ValidMergeKeyParts(key: string, parts: seq<string>)
    requires Split(key, ':') == parts
    ensures ValidMergeKey(key) <==> |parts| == 5 && 1 <= |parts[0]| <= 64 && forall i :: 1 <= i < 5 ==> Coordinate(parts[i])
  {
    hide Split, Coordinate;
  }

  lemma MergeKeyHolds(key: string, sheet: string, sr: string, sc: string, er: string, ec: string)
    requires IsMergeKey(key, sheet, sr, sc, er, ec)
    ensures ValidMergeKey(key)
  {
    hide Split, Number7, MergeKeyText, Coordinate, ValidMergeKey;
    Number7Is(sr);
    Number7Is(sc);
    Number7Is(er);
    Number7Is(ec);
    MergeParts(sheet, sr, sc, er, ec);
    ValidMergeKeyParts(key, [sheet, sr, sc, er, ec]);
  }

  lemma FiveParts(key: string) returns (sheet: string, sr: string, sc: string, er: string, ec: string)
    requires |Split(key, ':')| == 5
    ensures ':' !in sheet && key == MergeKeyText(sheet, sr, sc, er, ec) && Split(key, ':') == [sheet, sr, sc, er, ec]
  {
    hide Split, Joined;
    var r1, r2, r3;
    sheet, r1 := SplitOpens(key, ':');
    sr, r2 := SplitOpens(r1, ':');
    sc, r3 := SplitOpens(r2, ':');
    er, ec := SplitOpens(r3, ':');
    SplitLast(ec, ':');
    assert Split(r3, ':') == [er] + [ec];
    assert Split(r2, ':') == [sc] + Split(r3, ':');
    assert Split(r1, ':') == [sr] + Split(r2, ':');
    assert Split(key, ':') == [sheet] + Split(r1, ':');
  }

  lemma MergeKeyOpens(key: string)
    requires ValidMergeKey(key)
    ensures exists sheet, sr, sc, er, ec :: IsMergeKey(key, sheet, sr, sc, er, ec)
  {
    hide Split, Number7, MergeKeyText, Coordinate, ValidMergeKey;
    var parts := Split(key, ':');
    ValidMergeKeyParts(key, parts);
    var sheet, sr, sc, er, ec := FiveParts(key);
    assert parts[0] == sheet && parts[1] == sr && parts[2] == sc && parts[3] == er && parts[4] == ec;
    Number7Is(sr);
    Number7Is(sc);
    Number7Is(er);
    Number7Is(ec);
    assert IsMergeKey(key, sheet, sr, sc, er, ec);
  }

  predicate Id64(id: string) {
    1 <= |id| <= 64 && forall i :: 0 <= i < |id| ==> SheetContracts.IdChar(id[i])
  }

  predicate IsIdKey(key: string, sheet: string, id: string) {
    SheetName(sheet, '!') && Id64(id) && key == Joined(sheet, '!', id)
  }

  lemma IdKeyParts(key: string, bang: int)
    requires IndexOf(key, '!') == bang >= 0
    ensures SheetContracts.IdKey(key) <==> 1 <= bang <= 64 && Id64(key[bang + 1..])
  {
    hide IndexOf, SheetContracts.IdChar;
    var id := key[bang + 1..];
    assert forall i :: 0 <= i < |id| ==> id[i] == key[bang + 1 + i];
    assert forall i :: bang < i < |key| ==> key[i] == id[i - bang - 1];
  }

  /** Keys of drawings and links are exactly a sheet name without `!`, then `!` and an id. */
  lemma IdKeysAre(key: string)
    ensures SheetContracts.IdKey(key) <==> exists sheet, id :: IsIdKey(key, sheet, id)
  {
    hide IndexOf, SheetContracts.IdChar, Id64, SheetContracts.IdKey, Joined;
    if SheetContracts.IdKey(key) {
      var bang := IndexOf(key, '!');
      if bang < 0 {
        BangNeeded(key);
      } else {
        IdKeyParts(key, bang);
        JoinedAgain(key, bang);
        assert IsIdKey(key, key[..bang], key[bang + 1..]);
      }
    }
    if sheet, id :| IsIdKey(key, sheet, id) {
      JoinedFirst(sheet, '!', id);
      JoinedParts(sheet, '!', id);
      IdKeyParts(key, |sheet|);
    }
  }

  lemma IdCharsAre(c: char)
    ensures SheetContracts.IdChar(c) <==> c in "ABCDEFGHIJKLMNOPQRSTUVWXYZ" || c in "abcdefghijklmnopqrstuvwxyz" || c in "0123456789" || c == '_' || c == '-'
  {
  }

  // ----- what a written rule guards -----

  /** Two corners of a protected rectangle, in any order. */
  datatype Corners = Corners(sr: int, sc: int, er: int, ec: int)

  function RectWritten(q: Corners): Val {
    Obj([Field("startRow", Num(q.sr as real)), Field("startColumn", Num(q.sc as real)),
         Field("endRow", Num(q.er as real)), Field("endColumn", Num(q.ec as real))])
  }

  function RectsWritten(qs: seq<Corners>): seq<Val> {
    if qs == [] then [] else RectsWritten(qs[..|qs| - 1]) + [RectWritten(qs[|qs| - 1])]
  }

  function RuleWritten(permission: string, qs: seq<Corners>): Val {
    Obj([Field("permissionId", Str(permission)), Field("ranges", Arr(RectsWritten(qs)))])
  }

  predicate Between(a: int, x: int, b: int) {
    a <= x <= b || b <= x <= a
  }

  /** The cell lies in the rectangle with these corners. */
  predicate Covered(q: Corners, c: Cell) {
    Between(q.sr, c.row, q.er) && Between(q.sc, c.col, q.ec)
  }

  /** Some cell does. */
  predicate Reachable(q: Corners) {
    (q.sr >= 0 || q.er >= 0) && (q.sc >= 0 || q.ec >= 0)
  }

  lemma FieldNames()
    ensures "startRow" != "startColumn" && "startRow" != "endRow" && "startRow" != "endColumn"
    ensures "startColumn" != "endRow" && "startColumn" != "endColumn" && "endRow" != "endColumn"
    ensures "permissionId" != "ranges"
  {
    assert |"startRow"| == 8 && |"startColumn"| == 11 && |"endRow"| == 6 && |"endColumn"| == 9 && |"permissionId"| == 12 && |"ranges"| == 6;
  }

  lemma {:induction false} LookupSnoc(fields: seq<Field>, last: Field, name: string)
    ensures Lookup(fields + [last], name) == if last.name == name then last.value else Lookup(fields, name)
  {
    assert (fields + [last])[..|fields + [last]| - 1] == fields;
  }

  lemma RectFields(q: Corners)
    ensures var r := RectWritten(q);
            && FieldVal(r, "startRow") == Num(q.sr as real) && FieldVal(r, "startColumn") == Num(q.sc as real)
            && FieldVal(r, "endRow") == Num(q.er as real) && FieldVal(r, "endColumn") == Num(q.ec as real)
  {
    FieldNames();
    var f1, f2, f3, f4 := Field("startRow", Num(q.sr as real)), Field("startColumn", Num(q.sc as real)), Field("endRow", Num(q.er as real)), Field("endColumn", Num(q.ec as real));
    var fields := [f1, f2, f3, f4];
    assert fields == [] + [f1] + [f2] + [f3] + [f4];
    assert RectWritten(q) == Obj(fields);
    hide Lookup, RectWritten;
    forall name: string
      ensures Lookup(fields, name) == if name == f4.name then f4.value else if name == f3.name then f3.value else if name == f2.name then f2.value else if name == f1.name then f1.value else Lookup([], name)
    {
      LookupSnoc([] + [f1] + [f2] + [f3], f4, name);
      LookupSnoc([] + [f1] + [f2], f3, name);
      LookupSnoc([] + [f1], f2, name);
      LookupSnoc([], f1, name);
    }
  }

  /** A written rectangle is read unless no cell lies in it, and it holds exactly the cells between its corners. */
  lemma RectReads(q: Corners, c: Cell)
    ensures ReadRect(RectWritten(q)).Some? <==> Reachable(q)
    ensures Reachable(q) ==> (Inside(ReadRect(RectWritten(q)).value, c) <==> Covered(q, c))
  {
    RectFields(q);
    hide FieldVal, RectWritten;
  }

  predicate SomeCovers(qs: seq<Corners>, c: Cell) {
    exists q :: q in qs && Covered(q, c)
  }

  lemma {:induction false} RectsRead(qs: seq<Corners>, c: Cell)
    requires forall q :: q in qs ==> Reachable(q)
    ensures !Malformed(Arr(RectsWritten(qs))) && |ReadItems(RectsWritten(qs))| == |qs|
    ensures (exists rect :: rect in ReadItems(RectsWritten(qs)) && Inside(rect, c)) <==> SomeCovers(qs, c)
  {
    hide ReadItems, Malformed, ReadRect, Inside, Covered, Reachable, RectWritten;
    if qs == [] {
      NothingRead();
    } else {
      var front, last := qs[..|qs| - 1], qs[|qs| - 1];
      assert last in qs && forall q :: q in qs <==> q in front || q == last;
      RectsRead(front, c);
      RectReads(last, c);
      ItemsSnoc(RectsWritten(front), RectWritten(last));
    }
  }

  lemma RuleFields(permission: string, qs: seq<Corners>)
    ensures var rule := RuleWritten(permission, qs);
            IsObject(rule) && FieldVal(rule, "permissionId") == Str(permission) && FieldVal(rule, "ranges") == Arr(RectsWritten(qs))
  {
    FieldNames();
    var f1, f2 := Field("permissionId", Str(permission)), Field("ranges", Arr(RectsWritten(qs)));
    assert RuleWritten(permission, qs) == Obj([f1, f2]) && [f1] + [f2] == [f1, f2] && [] + [f1] == [f1];
    hide Lookup, RectsWritten, RuleWritten;
    LookupSnoc([f1], f2, "permissionId");
    LookupSnoc([], f1, "permissionId");
    LookupSnoc([f1], f2, "ranges");
  }

  lemma KindWritten(sheet: string, kind: char, id: string)
    requires '!' !in sheet
    ensures var key := Joined(sheet, '!', [kind] + id); IndexOf(key, '!') == |sheet| && key[..|sheet|] == sheet && KindOf(key) == [kind]
  {
    var key := Joined(sheet, '!', [kind] + id);
    JoinedFirst(sheet, '!', [kind] + id);
    JoinedParts(sheet, '!', [kind] + id);
    hide IndexOf, Joined;
    assert key[|sheet| + 1..|sheet| + 2] == key[|sheet| + 1..][..1] == [kind];
  }

  /** A rule under `sheet!r...` guards exactly the cells of its rectangles on that sheet, under its permission. */
  lemma RuleGuards(sheet: string, id: string, permission: string, qs: seq<Corners>, c: Cell)
    requires sheet != "" && '!' !in sheet && permission != "" && permission != SENTINEL
    requires qs != [] && forall q :: q in qs ==> Reachable(q)
    ensures var key, rule := Joined(sheet, '!', "r" + id), RuleWritten(permission, qs);
            PermissionOf(rule) == permission && (Guards(ExtentOf(key, rule), c) <==> c.sheet == sheet && SomeCovers(qs, c))
  {
    KindWritten(sheet, 'r', id);
    RuleFields(permission, qs);
    RectsRead(qs, c);
    assert ['r'] + id == "r" + id && ['r'] != "w";
    hide IndexOf, KindOf, Joined, FieldVal, RuleWritten, RectsWritten, ReadItems, Malformed, Inside, SomeCovers, Reachable;
  }

  /** A rule under `sheet!w...` guards the whole sheet. */
  lemma SheetRuleGuards(sheet: string, id: string, permission: string, qs: seq<Corners>, c: Cell)
    requires sheet != "" && '!' !in sheet && permission != "" && permission != SENTINEL
    ensures var key, rule := Joined(sheet, '!', "w" + id), RuleWritten(permission, qs);
            PermissionOf(rule) == permission && (Guards(ExtentOf(key, rule), c) <==> c.sheet == sheet)
  {
    KindWritten(sheet, 'w', id);
    RuleFields(permission, qs);
    assert ['w'] + id == "w" + id && ['w'] == "w";
    hide IndexOf, KindOf, Joined, FieldVal, RuleWritten, RectsWritten, ReadItems, Malformed, Inside;
  }

  function GrantWritten(writers: seq<Val>): Val {
    Obj([Field("allow", Arr(writers))])
  }

  lemma GrantReads(permission: string, writers: seq<Val>, uid: string)
    ensures Permits(map[permission := GrantWritten(writers)], uid, permission) <==> Str(uid) in writers
    ensures !Permits(map[], uid, permission)
  {
    assert [] + [Field("allow", Arr(writers))] == [Field("allow", Arr(writers))];
    LookupSnoc([], Field("allow", Arr(writers)), "allow");
    hide Lookup;
  }

  /**
   * From the texts alone: a write to `sheet!row:col` is refused exactly when the rule's sheet is
   * that sheet, the cell lies between some corners of the rule, and the writer is not listed.
   */
  lemma CellRefusedIff(sheet: string, row: string, col: string, on: string, id: string, permission: string, qs: seq<Corners>,
                       writers: seq<Val>, uid: string, number: NumberReader)
    requires '!' !in sheet && Number7(row) && Number7(col) && ReadsDecimals(number)
    requires on != "" && '!' !in on && permission != "" && permission != SENTINEL && qs != [] && forall q :: q in qs ==> Reachable(q)
    ensures Number7(row) ==> Coordinate(row) && Coordinate(col)
    ensures CellTarget(CellKeyText(sheet, row, col), number).Some?
    ensures Refused(map[Joined(on, '!', "r" + id) := RuleWritten(permission, qs)], map[permission := GrantWritten(writers)], uid,
                    CellTarget(CellKeyText(sheet, row, col), number).value)
        <==> sheet == on && SomeCovers(qs, Cell(sheet, Value(row), Value(col))) && Str(uid) !in writers
  {
    hide *;
    Number7Is(row);
    Number7Is(col);
    CellKeyReads(sheet, row, col, number);
    var c := Cell(sheet, Value(row), Value(col));
    RuleGuards(on, id, permission, qs, c);
    GrantReads(permission, writers, uid);
    OneRuleRefuses(Joined(on, '!', "r" + id), RuleWritten(permission, qs), map[permission := GrantWritten(writers)], uid, c);
  }

  /** One cell against one rule. */
  lemma OneRuleRefuses(key: string, rule: Val, grants: map<string, Val>, uid: string, c: Cell)
    ensures Refused(map[key := rule], grants, uid, CellAt(c.sheet, c.row, c.col)) <==>
            Guards(ExtentOf(key, rule), c) && !Permits(grants, uid, PermissionOf(rule))
  {
    var t := CellAt(c.sheet, c.row, c.col);
    assert Denotes(t, c) && forall d :: Denotes(t, d) ==> d == c;
    hide Guards, ExtentOf, PermissionOf, Permits, Denotes;
    var rules := map[key := rule];
    assert key in rules && rules[key] == rule && forall k :: k in rules ==> k == key;
  }

  // ----- the order in which keys are refused -----

  lemma {:induction false} AllBlocked(kind: Kind, keys: seq<string>, number: NumberReader, idx: Index, grants: map<string, Val>, uid: string)
    requires forall key :: key in keys ==> TargetOf(kind, key, number).Some? && Blocks(idx, grants, uid, TargetOf(kind, key, number).value)
    ensures BlockedKeys(TargetsOf(kind, keys, number), idx, grants, uid) == keys
  {
    hide Blocks, TargetOf, BlockedKeys;
    if keys == [] {
      assert BlockedKeys([], idx, grants, uid) == [] by {
        NoneBlocked(idx, grants, uid);
      }
    } else {
      var front, last := keys[..|keys| - 1], keys[|keys| - 1];
      assert last in keys && forall key :: key in front ==> key in keys;
      AllBlocked(kind, front, number, idx, grants, uid);
      BlockedSnoc(TargetsOf(kind, front, number), last, TargetOf(kind, last, number).value, idx, grants, uid);
    }
  }

  lemma NoneBlocked(idx: Index, grants: map<string, Val>, uid: string)
    ensures BlockedKeys([], idx, grants, uid) == []
  {
  }

  lemma BlockedSnoc(ts: seq<(string, Option<Target>)>, key: string, t: Target, idx: Index, grants: map<string, Val>, uid: string)
    requires Blocks(idx, grants, uid, t)
    ensures BlockedKeys(ts + [(key, Some(t))], idx, grants, uid) == BlockedKeys(ts, idx, grants, uid) + [key]
  {
    hide Blocks;
    assert (ts + [(key, Some(t))])[..|ts + [(key, Some(t))]| - 1] == ts;
  }

  lemma AcceptedHasTarget(kind: Kind, key: string, number: NumberReader)
    requires AcceptedKey(kind, key) && ReadsDecimals(number)
    ensures TargetOf(kind, key, number).Some?
  {
    hide ValidCellKey, ValidDimKey, ValidMergeKey, CellTarget, DimTarget, MergeTarget, ReadsDecimals, ValidTabKey;
    match kind
    case CellKey => ValidCellAddresses(key, number);
    case DimKey => ValidDimAddresses(key, number);
    case MergeKey => ValidMergeAddresses(key, number);
    case TabKey =>
  }

  /** Where everything is refused, cells are named first, then dimensions, merges and tabs, each in batch order. */
  lemma RefusedInOrder(b: Batch, number: NumberReader)
    requires AcceptedKeys(b) && ReadsDecimals(number)
    ensures BlockedKeys(Targets(b, number), IndexOfRules(map["" := Null], [""]), map[], "") == b.cells + b.dims + b.merges + b.tabs
  {
    var idx := IndexOfRules(map["" := Null], [""]);
    forall kind: Kind, key | AcceptedKey(kind, key)
      ensures TargetOf(kind, key, number).Some? && Blocks(idx, map[], "", TargetOf(kind, key, number).value)
    {
      AcceptedHasTarget(kind, key, number);
      LockedDocument(TargetOf(kind, key, number).value);
    }
    hide Blocks, TargetOf, AcceptedKey, BlockedKeys, TargetsOf, IndexOfRules;
    AllBlocked(CellKey, b.cells, number, idx, map[], "");
    AllBlocked(DimKey, b.dims, number, idx, map[], "");
    AllBlocked(MergeKey, b.merges, number, idx, map[], "");
    AllBlocked(TabKey, b.tabs, number, idx, map[], "");
    FourPasses(TargetsOf(CellKey, b.cells, number), TargetsOf(DimKey, b.dims, number),
               TargetsOf(MergeKey, b.merges, number), TargetsOf(TabKey, b.tabs, number), idx, map[], "");
  }
}
