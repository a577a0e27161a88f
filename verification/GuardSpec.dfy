/**
 * What sheet protection means: every rule guards a set of cells under a permission, and a write
 * is refused when it addresses a guarded cell whose permission the writer does not hold.
 */
module GuardSpec {
  import opened Prelude
  import opened JsValues
  import opened Strings
  import opened SheetKeys

  /** A cell of some sheet; no coordinate is negative. */
  datatype Cell = Cell(sheet: string, row: nat, col: nat)

  /** An inclusive rectangle with ordered bounds. */
  datatype Rect = Rect(startRow: int, startColumn: int, endRow: int, endColumn: int)

  /** How far a rule reaches. */
  datatype Extent =
    | Document
    | WholeSheet(sheet: string)
    | Areas(sheet: string, rects: seq<Rect>)

  /** The permission of a rule that names none; the code counts on nobody being granted it. */
  const SENTINEL: string := "\0unparseable-protection-rule"

  function FieldVal(v: Val, name: string): Val {
    if v.Obj? then Lookup(v.fields, name) else Undefined
  }

  function Lookup(fields: seq<Field>, name: string): Val {
    if fields == [] then Undefined
    else if fields[|fields| - 1].name == name then fields[|fields| - 1].value
    else Lookup(fields[..|fields| - 1], name)
  }

  // ----- reading a rule -----

  predicate FourIntegers(r: Val) {
    IsInteger(FieldVal(r, "startRow")) && IsInteger(FieldVal(r, "startColumn"))
    && IsInteger(FieldVal(r, "endRow")) && IsInteger(FieldVal(r, "endColumn"))
  }

  function Min(a: int, b: int): int {
    if a <= b then a else b
  }

  function Max(a: int, b: int): int {
    if a <= b then b else a
  }

  function Ordered(sr: int, sc: int, er: int, ec: int): Rect {
    Rect(Min(sr, er), Min(sc, ec), Max(sr, er), Max(sc, ec))
  }

  /** One element of `ranges`: bounds in any order, but some cell must be able to lie inside. */
  function ReadRect(r: Val): Option<Rect> {
    if !FourIntegers(r) then None
    else
      var rect := Ordered(FieldVal(r, "startRow").n.Floor, FieldVal(r, "startColumn").n.Floor,
                          FieldVal(r, "endRow").n.Floor, FieldVal(r, "endColumn").n.Floor);
      if rect.endRow < 0 || rect.endColumn < 0 then None else Some(rect)
  }

  function ReadItems(items: seq<Val>): (rects: seq<Rect>) {
    if items == [] then []
    else
      var front := ReadItems(items[..|items| - 1]);
      var last := ReadRect(items[|items| - 1]);
      if last.Some? then front + [last.value] else front
  }

  predicate Malformed(ranges: Val) {
    !ranges.Arr? || exists r :: r in ranges.items && ReadRect(r).None?
  }

  function PermissionOf(rule: Val): string {
    if FieldVal(rule, "permissionId").Str? && FieldVal(rule, "permissionId").s != "" then FieldVal(rule, "permissionId").s
    else SENTINEL
  }

  function KindOf(key: string): string {
    var bang := IndexOf(key, '!');
    if bang + 2 <= |key| then key[bang + 1..bang + 2] else ""
  }

  /** A rule that cannot be read in full reaches as far as it might have been meant to. */
  function ExtentOf(key: string, rule: Val): Extent {
    var bang := IndexOf(key, '!');
    if bang <= 0 then Document
    else
      var sheet := key[..bang];
      var ranges := FieldVal(rule, "ranges");
      if !IsObject(rule) || PermissionOf(rule) == SENTINEL || KindOf(key) == "w" || Malformed(ranges) || ReadItems(ranges.items) == []
      then WholeSheet(sheet)
      else Areas(sheet, ReadItems(ranges.items))
  }

  // ----- who may write -----

  function AllowList(grants: map<string, Val>, permission: string): seq<Val> {
    if permission in grants && FieldVal(grants[permission], "allow").Arr? then FieldVal(grants[permission], "allow").items else []
  }

  predicate Permits(grants: map<string, Val>, uid: string, permission: string) {
    Str(uid) in AllowList(grants, permission)
  }

  // ----- the specification: two sets of cells meet -----

  predicate Inside(rect: Rect, c: Cell) {
    rect.startRow <= c.row <= rect.endRow && rect.startColumn <= c.col <= rect.endColumn
  }

  predicate Guards(e: Extent, c: Cell) {
    match e
    case Document => true
    case WholeSheet(sheet) => c.sheet == sheet
    case Areas(sheet, rects) => c.sheet == sheet && exists rect :: rect in rects && Inside(rect, c)
  }

  predicate Denotes(t: Target, c: Cell) {
    match t
    case CellAt(sheet, row, col) => c == Cell(sheet, c.row, c.col) && c.row == row && c.col == col
    case Column(sheet, idx) => c.sheet == sheet && c.col == idx
    case Row(sheet, idx) => c.sheet == sheet && c.row == idx
    case Block(sheet, sr, sc, er, ec) => c.sheet == sheet && sr <= c.row <= er && sc <= c.col <= ec
    case Tab(sheet) => c.sheet == sheet
  }

  /** Some rule guards a cell the write addresses, under a permission the writer lacks. */
  ghost predicate Refused(rules: map<string, Val>, grants: map<string, Val>, uid: string, t: Target) {
    exists key, c :: key in rules && Denotes(t, c) && Guards(ExtentOf(key, rules[key]), c) && !Permits(grants, uid, PermissionOf(rules[key]))
  }

  /** Coordinates as an accepted key yields them, with the corners of a block in order. */
  predicate Regular(t: Target) {
    Addresses(Some(t)) && (t.Block? ==> t.sr <= t.er && t.sc <= t.ec)
  }

  // ----- the code's geometry -----

  predicate Touches(rect: Rect, t: Target) {
    match t
    case CellAt(_, row, col) => !(row < rect.startRow || row > rect.endRow || col < rect.startColumn || col > rect.endColumn)
    case Column(_, idx) => idx >= rect.startColumn && idx <= rect.endColumn
    case Row(_, idx) => idx >= rect.startRow && idx <= rect.endRow
    case Block(_, sr, sc, er, ec) => !(er < rect.startRow || sr > rect.endRow || ec < rect.startColumn || sc > rect.endColumn)
    case Tab(_) => true
  }

  predicate Hits(e: Extent, t: Target) {
    match e
    case Document => true
    case WholeSheet(sheet) => t.sheet == sheet
    case Areas(sheet, rects) => t.sheet == sheet && exists rect :: rect in rects && Touches(rect, t)
  }

  predicate Usable(rect: Rect) {
    rect.startRow <= rect.endRow && rect.startColumn <= rect.endColumn && rect.endRow >= 0 && rect.endColumn >= 0
  }

  lemma {:induction false} ReadItemsAreUsable(items: seq<Val>)
    ensures forall rect :: rect in ReadItems(items) ==> Usable(rect)
  {
    if items != [] {
      ReadItemsAreUsable(items[..|items| - 1]);
      hide FourIntegers, FieldVal;
    }
  }

  /** The four hand-written tests decide exactly whether a rectangle and a write share a cell. */
  lemma TouchesIsMeeting(rect: Rect, t: Target)
    requires Usable(rect) && Regular(t)
    ensures Touches(rect, t) <==> exists c :: Denotes(t, c) && Inside(rect, c)
  {
    if Touches(rect, t) {
      var top, left := Max(0, rect.startRow), Max(0, rect.startColumn);
      var c := match t
        case CellAt(sheet, row, col) => Cell(sheet, row, col)
        case Column(sheet, idx) => Cell(sheet, top, idx)
        case Row(sheet, idx) => Cell(sheet, idx, left)
        case Block(sheet, sr, sc, _, _) => Cell(sheet, Max(top, sr), Max(left, sc))
        case Tab(sheet) => Cell(sheet, top, left);
      assert Denotes(t, c) && Inside(rect, c);
    }
  }

  lemma SomeCell(t: Target) returns (c: Cell)
    requires Regular(t)
    ensures Denotes(t, c) && c.sheet == t.sheet
  {
    c := match t
      case CellAt(sheet, row, col) => Cell(sheet, row, col)
      case Column(sheet, idx) => Cell(sheet, 0, idx)
      case Row(sheet, idx) => Cell(sheet, idx, 0)
      case Block(sheet, sr, sc, _, _) => Cell(sheet, sr, sc)
      case Tab(sheet) => Cell(sheet, 0, 0);
  }

  /** So the code's test of a whole rule decides whether the two sets of cells meet. */
  lemma HitsIsMeeting(key: string, rule: Val, t: Target)
    requires Regular(t)
    ensures Hits(ExtentOf(key, rule), t) <==> exists c :: Denotes(t, c) && Guards(ExtentOf(key, rule), c)
  {
    var e := ExtentOf(key, rule);
    var some := SomeCell(t);
    if e.Areas? {
      ReadItemsAreUsable(FieldVal(rule, "ranges").items);
    }
    AreasAreRead(key, rule);
    hide ExtentOf, Touches, Inside;
    match e
    case Document =>
      assert Guards(e, some);
    case WholeSheet(sheet) =>
      assert t.sheet == sheet ==> Guards(e, some);
      assert forall c :: Denotes(t, c) ==> c.sheet == t.sheet;
    case Areas(sheet, rects) =>
      forall rect | rect in rects
        ensures Touches(rect, t) <==> exists c :: Denotes(t, c) && Inside(rect, c)
      {
        TouchesIsMeeting(rect, t);
      }
      assert forall c :: Denotes(t, c) ==> c.sheet == t.sheet;
  }

  lemma AreasAreRead(key: string, rule: Val)
    ensures var e := ExtentOf(key, rule); e.Areas? ==> forall rect :: rect in e.rects ==> Usable(rect)
  {
    if ExtentOf(key, rule).Areas? {
      ReadItemsAreUsable(FieldVal(rule, "ranges").items);
    }
    hide IndexOf, FieldVal, PermissionOf, KindOf, Malformed, ReadItems;
  }
}
