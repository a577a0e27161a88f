/**
 * The keys of the shared sheet maps: how the code takes them apart, which of them the
 * contracts accept, and which part of a sheet each one addresses.
 */
module SheetKeys {
  import opened Prelude
  import opened Strings

  /** One to seven digits. */
  predicate Coordinate(s: string) {
    Digits(s) && |s| <= 7
  }

  /** The language's number reader, where it yields an integer; on a coordinate it reads the decimal value. */
  type NumberReader = string -> Option<int>

  ghost predicate ReadsDecimals(number: NumberReader) {
    forall s :: Coordinate(s) ==> number(s) == Some(Value(s))
  }

  // ----- what a key addresses -----

  /** A cell, a whole column or row, a block between two corners, or a whole tab. */
  datatype Target =
    | CellAt(sheet: string, row: int, col: int)
    | Column(sheet: string, idx: int)
    | Row(sheet: string, idx: int)
    | Block(sheet: string, sr: int, sc: int, er: int, ec: int)
    | Tab(sheet: string)

  const DEFAULT_SHEET: string := "default"

  function CellTarget(key: string, number: NumberReader): Option<Target> {
    var bang := IndexOf(key, '!');
    if bang < 0 then None
    else
      var parts := Split(key[bang + 1..], ':');
      if |parts| < 2 || number(parts[0]).None? || number(parts[1]).None? then None
      else Some(CellAt(key[..bang], number(parts[0]).value, number(parts[1]).value))
  }

  function LineTarget(sheet: string, part: string, number: NumberReader): Option<Target> {
    if part == "" || (part[0] != 'c' && part[0] != 'r') || number(part[1..]).None? then None
    else if part[0] == 'c' then Some(Column(sheet, number(part[1..]).value))
    else Some(Row(sheet, number(part[1..]).value))
  }

  /** A key without a sheet addresses the default sheet. */
  function DimTarget(key: string, number: NumberReader): Option<Target> {
    var colon := LastIndexOf(key, ':');
    if colon < 0 then LineTarget(DEFAULT_SHEET, key, number) else LineTarget(key[..colon], key[colon + 1..], number)
  }

  function MergeTarget(key: string, number: NumberReader): Option<Target> {
    var parts := Split(key, ':');
    if |parts| != 5 || (exists i :: 1 <= i < 5 && number(parts[i]).None?) then None
    else Some(Block(parts[0], number(parts[1]).value, number(parts[2]).value, number(parts[3]).value, number(parts[4]).value))
  }

  // ----- the key contracts -----

  predicate ValidCellKey(key: string) {
    var bang := IndexOf(key, '!');
    && 1 <= bang <= 64
    && var rest := key[bang + 1..]; var colon := IndexOf(rest, ':');
    && colon >= 0 && Coordinate(rest[..colon]) && Coordinate(rest[colon + 1..])
  }

  predicate ValidDimPart(part: string) {
    part != "" && (part[0] == 'c' || part[0] == 'r') && Coordinate(part[1..])
  }

  predicate ValidDimKey(key: string) {
    var colon := IndexOf(key, ':');
    if colon < 0 then ValidDimPart(key) else 1 <= colon <= 64 && ValidDimPart(key[colon + 1..])
  }

  predicate ValidMergeKey(key: string) {
    var parts := Split(key, ':');
    && |parts| == 5
    && 1 <= |parts[0]| <= 64
    && forall i :: 1 <= i < 5 ==> Coordinate(parts[i])
  }

  predicate IsControl(c: char) {
    c < ' ' || '\U{7f}' <= c <= '\U{9f}'
  }

  const RESERVED_IDS: set<string> := {"__proto__", "constructor", "prototype"}

  predicate ValidTabKey(key: string) {
    && 1 <= |key| <= 64
    && (forall i :: 0 <= i < |key| ==> key[i] != ':' && key[i] != '!' && !IsControl(key[i]))
    && key !in RESERVED_IDS
  }

  /** An accepted key addresses something, at coordinates that are never negative. */
  predicate Addresses(t: Option<Target>) {
    t.Some? && match t.value
      case CellAt(_, row, col) => row >= 0 && col >= 0
      case Column(_, idx) => idx >= 0
      case Row(_, idx) => idx >= 0
      case Block(_, sr, sc, er, ec) => sr >= 0 && sc >= 0 && er >= 0 && ec >= 0
      case Tab(_) => true
  }

  lemma NoColonInDigits(s: string)
    requires Digits(s)
    ensures ':' !in s
  {
  }

  lemma ReadsCoordinate(number: NumberReader, s: string)
    requires ReadsDecimals(number) && Coordinate(s)
    ensures number(s).Some? && number(s).value >= 0
  {
  }

  lemma SplitOnce(s: string, c: char, i: nat)
    requires IndexOf(s, c) == i && c !in s[i + 1..]
    ensures Split(s, c) == [s[..i], s[i + 1..]]
  {
    assert IndexOf(s[i + 1..], c) < 0;
  }

  lemma ValidCellAddresses(key: string, number: NumberReader)
    requires ValidCellKey(key) && ReadsDecimals(number)
    ensures Addresses(CellTarget(key, number))
  {
    hide IndexOf, Split, Value, Digits;
    var rest := key[IndexOf(key, '!') + 1..];
    var colon := IndexOf(rest, ':');
    NoColonInDigits(rest[colon + 1..]);
    SplitOnce(rest, ':', colon);
  }

  lemma ValidDimAddresses(key: string, number: NumberReader)
    requires ValidDimKey(key) && ReadsDecimals(number)
    ensures Addresses(DimTarget(key, number))
  {
    hide Value, LastIndexOf, IndexOf, ValidDimPart, LineTarget, ReadsDecimals;
    var colon := IndexOf(key, ':');
    if colon >= 0 {
      NoColonInPart(key[colon + 1..]);
      LastIsFirst(key, ':');
      LineAddresses(key[..colon], key[colon + 1..], number);
    } else {
      LineAddresses(DEFAULT_SHEET, key, number);
    }
  }

  lemma LineAddresses(sheet: string, part: string, number: NumberReader)
    requires ValidDimPart(part) && ReadsDecimals(number)
    ensures Addresses(LineTarget(sheet, part, number))
  {
    ReadsCoordinate(number, part[1..]);
    hide Value, ReadsDecimals, Digits;
  }

  lemma NoColonInPart(part: string)
    requires ValidDimPart(part)
    ensures ':' !in part
  {
    NoColonInDigits(part[1..]);
    assert part == [part[0]] + part[1..];
  }

  lemma LastIsFirst(s: string, c: char)
    requires IndexOf(s, c) >= 0 && c !in s[IndexOf(s, c) + 1..]
    ensures LastIndexOf(s, c) == IndexOf(s, c)
  {
    var first := IndexOf(s, c);
    OccursIn(s, c, first);
    hide *;
  }

  lemma OccursIn(s: string, c: char, i: nat)
    requires i < |s|
    ensures forall k :: 0 <= k < i && s[k] == c ==> c in s[..i]
    ensures forall k :: i < k < |s| && s[k] == c ==> c in s[i + 1..]
  {
    assert forall k :: 0 <= k < i ==> s[k] in s[..i];
    forall k | i < k < |s|
      ensures s[k] in s[i + 1..]
    {
      assert s[k] == s[i + 1..][k - i - 1];
    }
  }

  lemma ValidMergeAddresses(key: string, number: NumberReader)
    requires ValidMergeKey(key) && ReadsDecimals(number)
    ensures Addresses(MergeTarget(key, number))
  {
    hide Split, Value;
  }
}
