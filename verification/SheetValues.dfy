/**
 * What each contract of a spreadsheet accepts, written out: the fields of a cell, the size of
 * a line, and what the value of a drawing, a link, a merge and a tab must hold.
 */
module SheetValues {
  import opened Prelude
  import opened JsValues
  import opened Strings
  import opened SheetKeys
  import opened SheetContracts
  import opened SheetText
  import GuardSpec

  // ----- fields of an object -----

  /** The object has that field with that value. */
  predicate Has(v: Val, name: string, w: Val) {
    v.Obj? && Field(name, w) in v.fields
  }

  predicate HasCount(v: Val, name: string, n: nat) {
    Has(v, name, Num(n as real))
  }

  predicate PlainObject(v: Val) {
    v.Obj? && DistinctFields(v.fields)
  }

  lemma {:induction false} LookupIs(fields: seq<Field>, name: string, w: Val)
    requires DistinctFields(fields)
    ensures Field(name, w) in fields ==> GuardSpec.Lookup(fields, name) == w
    ensures GuardSpec.Lookup(fields, name) == w ==> Field(name, w) in fields || w.Undefined?
  {
    if fields != [] {
      var front, last := fields[..|fields| - 1], fields[|fields| - 1];
      assert fields == front + [last];
      LookupIs(front, name, w);
      if Field(name, w) in front {
        var i :| 0 <= i < |front| && front[i] == Field(name, w);
        assert fields[i].name != fields[|fields| - 1].name;
      }
    }
  }

  lemma HasIs(v: Val, name: string, w: Val)
    requires PlainObject(v)
    ensures !w.Undefined? ==> (Lookup(v, name) == w <==> Has(v, name, w))
    ensures Lookup(v, name) == Undefined <==> forall f :: f in v.fields && f.name == name ==> f.value == Undefined
  {
    LookupIs(v.fields, name, w);
    var found := GuardSpec.Lookup(v.fields, name);
    LookupIs(v.fields, name, found);
    hide GuardSpec.Lookup, DistinctFields;
    forall f | f in v.fields && f.name == name
      ensures f.value == found
    {
      LookupIs(v.fields, name, f.value);
      assert f == Field(name, f.value);
    }
  }

  lemma AcceptedWhen(surface: Surface, key: string, v: Val)
    ensures Stored(surface, key, v).Some? <==> ValidKey(surface, key) && ValueOk(surface, key, v)
  {
    hide ValidKey, ValueOk;
  }

  // ----- cells and lines -----

  predicate CellField(f: Field) {
    || (f.name == "v" && (f.value.Null? || f.value.Str? || f.value.Num? || f.value.Bool?))
    || (f.name == "f" && f.value.Str?)
    || (f.name == "s" && f.value.Obj?)
    || (f.name == "p" && f.value.Obj?)
    || (f.name == "t" && f.value.Num?)
  }

  /** A cell is an object of at least one field, and of no other than these five. */
  lemma CellAccepted(key: string, v: Val)
    ensures Stored(Cells, key, v).Some? <==> ValidCellKey(key) && PlainObject(v) && v.fields != [] && forall f :: f in v.fields ==> CellField(f)
  {
    AcceptedWhen(Cells, key, v);
    hide ValidCellKey, DistinctFields;
    forall f: Field
      ensures CellFieldOk(f.name, f.value) <==> CellField(f)
    {
      CellFieldIs(f);
    }
    hide CellFieldOk, CellField;
  }

  lemma CellFieldIs(f: Field)
    ensures CellFieldOk(f.name, f.value) <==> CellField(f)
  {
    assert forall a: char, b: char :: a != b ==> [a] != [b];
  }

  /** The size of a line is a positive number of pixels, at most a hundred thousand. */
  lemma DimAccepted(key: string, v: Val)
    ensures Stored(Dims, key, v).Some? <==> ValidDimKey(key) && v.Num? && 0.0 < v.n <= 100000.0
  {
    hide ValidDimKey;
  }

  // ----- drawings and links -----

  lemma IdOfKey(key: string, sheet: string, id: string)
    requires IsIdKey(key, sheet, id)
    ensures IdKey(key) && IndexOf(key, '!') == |sheet| && key[|sheet| + 1..] == id
  {
    assert IdKey(key) by {
      IdKeysAre(key);
    }
    JoinedFirst(sheet, '!', id);
    JoinedParts(sheet, '!', id);
    hide IndexOf, IdKey, Joined, Id64;
  }

  /** A drawing is an object that names the id of its key. */
  lemma DrawingAccepted(key: string, sheet: string, id: string, v: Val)
    requires IsIdKey(key, sheet, id) && (v.Obj? ==> DistinctFields(v.fields))
    ensures Stored(Drawings, key, v).Some? <==> Has(v, "drawingId", Str(id))
  {
    IdOfKey(key, sheet, id);
    AcceptedWhen(Drawings, key, v);
    if v.Obj? {
      HasIs(v, "drawingId", Str(id));
    }
    hide IndexOf, IdKey, IsIdKey, Lookup, DistinctFields;
  }

  predicate SameLetter(c: char, p: char) {
    c == p || ('a' <= p <= 'z' && c as int + 32 == p as int)
  }

  predicate Opens(url: string, scheme: string) {
    |scheme| <= |url| && forall i :: 0 <= i < |scheme| ==> SameLetter(url[i], scheme[i])
  }

  /** An internal jump, or a web or mail address, the scheme in any case. */
  predicate SafeUrl(url: string) {
    (url != "" && url[0] == '#') || Opens(url, "http:") || Opens(url, "https:") || Opens(url, "mailto:")
  }

  lemma LowerIs(c: char, p: char)
    requires 'a' <= p <= 'z' || p == ':'
    ensures Lower(c) == p <==> SameLetter(c, p)
  {
  }

  lemma OpensIs(url: string, scheme: string)
    requires forall i :: 0 <= i < |scheme| ==> 'a' <= scheme[i] <= 'z' || scheme[i] == ':'
    ensures StartsWithAnyCase(url, scheme) <==> Opens(url, scheme)
  {
    if |scheme| <= |url| {
      forall i | 0 <= i < |scheme|
        ensures Lower(url[i]) == scheme[i] <==> SameLetter(url[i], scheme[i])
      {
        LowerIs(url[i], scheme[i]);
      }
    }
    hide Lower, SameLetter;
  }

  lemma SafeUrlIs(url: string)
    ensures SafePayload(url) <==> SafeUrl(url)
  {
    OpensIs(url, "http:");
    OpensIs(url, "https:");
    OpensIs(url, "mailto:");
    assert Opens(url, "http:") ==> url != "";
    assert Opens(url, "https:") ==> url != "";
    assert Opens(url, "mailto:") ==> url != "";
    hide StartsWithAnyCase, Opens;
  }

  lemma CountingIs(v: Val, name: string)
    requires PlainObject(v)
    ensures CountingNumber(Lookup(v, name)) <==> exists n: nat :: HasCount(v, name, n)
  {
    var w := Lookup(v, name);
    HasIs(v, name, w);
    if CountingNumber(w) {
      assert w == Num(w.n.Floor as real) && HasCount(v, name, w.n.Floor);
    }
    if n: nat :| HasCount(v, name, n) {
      HasIs(v, name, Num(n as real));
    }
  }

  lemma TextIs(v: Val, name: string)
    requires PlainObject(v)
    ensures Lookup(v, name).Str? ==> Has(v, name, Lookup(v, name))
    ensures forall s :: Has(v, name, Str(s)) ==> Lookup(v, name) == Str(s)
  {
    HasIs(v, name, Lookup(v, name));
    forall s | Has(v, name, Str(s))
      ensures Lookup(v, name) == Str(s)
    {
      HasIs(v, name, Str(s));
    }
  }

  /** A link is an object with the id of its key, a row and a column, a safe address and no other display than a text. */
  lemma LinkAccepted(key: string, sheet: string, id: string, v: Val)
    requires IsIdKey(key, sheet, id) && (v.Obj? ==> DistinctFields(v.fields))
    ensures Stored(Links, key, v).Some? <==>
            && Has(v, "id", Str(id))
            && (exists n: nat :: HasCount(v, "row", n))
            && (exists n: nat :: HasCount(v, "column", n))
            && (exists url :: Has(v, "payload", Str(url)) && SafeUrl(url))
            && (forall f :: f in v.fields && f.name == "display" ==> f.value.Undefined? || f.value.Str?)
  {
    IdOfKey(key, sheet, id);
    AcceptedWhen(Links, key, v);
    if v.Obj? {
      HasIs(v, "id", Str(id));
      CountingIs(v, "row");
      CountingIs(v, "column");
      TextIs(v, "payload");
      DisplayIs(v);
      forall url
        ensures SafePayload(url) <==> SafeUrl(url)
      {
        SafeUrlIs(url);
      }
    }
    hide IndexOf, IdKey, IsIdKey, Lookup, DistinctFields, SafePayload, SafeUrl, CountingNumber;
  }

  lemma DisplayIs(v: Val)
    requires PlainObject(v)
    ensures (Lookup(v, "display").Undefined? || Lookup(v, "display").Str?)
       <==> forall f :: f in v.fields && f.name == "display" ==> f.value.Undefined? || f.value.Str?
  {
    var w := Lookup(v, "display");
    HasIs(v, "display", w);
    hide Lookup, DistinctFields;
    forall f | f in v.fields && f.name == "display"
      ensures f.value == w
    {
      HasIs(v, "display", f.value);
      assert f == Field("display", f.value);
    }
  }

  // ----- merges and tabs -----

  /** A merge is `true` under a key whose start is not after its end. */
  lemma MergeAccepted(key: string, sheet: string, sr: string, sc: string, er: string, ec: string, v: Val)
    requires IsMergeKey(key, sheet, sr, sc, er, ec)
    ensures Stored(SheetContracts.Merges, key, v).Some? <==> v == Bool(true) && Value(sr) <= Value(er) && Value(sc) <= Value(ec)
  {
    AcceptedWhen(SheetContracts.Merges, key, v);
    MergeKeysAre(key);
    hide ValidMergeKey, OrderedCorners, Value;
    CornersOf(key, sheet, sr, sc, er, ec);
  }

  lemma CornersOf(key: string, sheet: string, sr: string, sc: string, er: string, ec: string)
    requires IsMergeKey(key, sheet, sr, sc, er, ec)
    ensures OrderedCorners(key) <==> Value(sr) <= Value(er) && Value(sc) <= Value(ec)
  {
    hide Number7, Value, Split, Digits;
    Number7Is(sr);
    Number7Is(sc);
    Number7Is(er);
    Number7Is(ec);
    MergeParts(sheet, sr, sc, er, ec);
  }

  /** A tab is an object with a name and an order. */
  lemma TabAccepted(key: string, v: Val)
    requires ValidTabKey(key) && (v.Obj? ==> DistinctFields(v.fields))
    ensures Stored(Tabs, key, v).Some? <==>
            && (exists name :: Has(v, "name", Str(name)) && name != "")
            && (exists n :: Has(v, "order", Num(n)))
  {
    AcceptedWhen(Tabs, key, v);
    if v.Obj? {
      TextIs(v, "name");
      HasIs(v, "order", Lookup(v, "order"));
      forall n | Has(v, "order", Num(n))
        ensures Lookup(v, "order") == Num(n)
      {
        HasIs(v, "order", Num(n));
      }
    }
    hide ValidTabKey, Lookup, DistinctFields;
  }

  /** A tab key has at most 64 characters, none of them a colon, a bang or a control character, and is not reserved. */
  lemma TabKeysAre(key: string)
    ensures ValidTabKey(key) <==>
            && 1 <= |key| <= 64 && ':' !in key && '!' !in key
            && (forall c :: c in key ==> !(0 <= c as int <= 31 || 127 <= c as int <= 159))
            && key != "__proto__" && key != "constructor" && key != "prototype"
  {
    ReservedAre(key);
    TabCharsAre(key);
    hide *;
    assert ValidTabKey(key) <==> 1 <= |key| <= 64 && (forall i :: 0 <= i < |key| ==> TabChar(key[i])) && key !in RESERVED_IDS by {
      ValidTabKeyIs(key);
    }
  }

  predicate TabChar(c: char) {
    c != ':' && c != '!' && !IsControl(c)
  }

  lemma ValidTabKeyIs(key: string)
    ensures ValidTabKey(key) <==> 1 <= |key| <= 64 && (forall i :: 0 <= i < |key| ==> TabChar(key[i])) && key !in RESERVED_IDS
  {
    hide RESERVED_IDS, IsControl;
  }

  lemma TabCharsAre(key: string)
    ensures (forall i :: 0 <= i < |key| ==> TabChar(key[i]))
       <==> ':' !in key && '!' !in key && forall c :: c in key ==> !(0 <= c as int <= 31 || 127 <= c as int <= 159)
  {
    forall c: char
      ensures IsControl(c) <==> 0 <= c as int <= 31 || 127 <= c as int <= 159
    {
    }
    hide IsControl;
    if forall i :: 0 <= i < |key| ==> TabChar(key[i]) {
      forall c | c in key
        ensures TabChar(c)
      {
        var i :| 0 <= i < |key| && key[i] == c;
      }
      assert ':' in key ==> TabChar(':');
      assert '!' in key ==> TabChar('!');
    } else {
      var i :| 0 <= i < |key| && !TabChar(key[i]);
      assert key[i] in key;
    }
  }

  lemma ReservedAre(key: string)
    ensures key in RESERVED_IDS <==> key == "__proto__" || key == "constructor" || key == "prototype"
  {
  }
}
