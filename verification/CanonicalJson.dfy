/**
 * Canonical JSON of a deck: objects rebuilt in sorted key order, then printed. The canonical
 * string is a complete invariant of the deck as a tree with unordered objects.
 */
module CanonicalJson {
  import opened Prelude
  import opened Strings

  /**
   * A parsed JSON value. Object members keep the order in which the language enumerates them; a
   * number is the text that the language prints for it.
   */
  datatype Json =
    | JNull
    | JBool(b: bool)
    | JNum(text: string)
    | JStr(s: string)
    | JArr(items: seq<Json>)
    | JObj(members: seq<Member>)

  datatype Member = Member(key: string, value: Json)

  predicate NumberChar(c: char) {
    '0' <= c <= '9' || c == '-' || c == '+' || c == '.' || c == 'e'
  }

  predicate NumberText(s: string) {
    s != "" && (s[0] == '-' || '0' <= s[0] <= '9') && forall i :: 0 <= i < |s| ==> NumberChar(s[i])
  }

  function Keys(ms: seq<Member>): seq<string> {
    seq(|ms|, i requires 0 <= i < |ms| => ms[i].key)
  }

  /** What a parser yields: printed numbers, and objects that name each key once. */
  predicate Parsed(v: Json) {
    match v
    case JNum(text) => NumberText(text)
    case JArr(items) => forall i :: 0 <= i < |items| ==> Parsed(items[i])
    case JObj(ms) => Distinct(Keys(ms)) && forall i :: 0 <= i < |ms| ==> Parsed(ms[i].value)
    case _ => true
  }

  // ----- the order in which the language enumerates keys -----

  /** A canonical array index. */
  predicate IsIndex(key: string) {
    NoLeadingZero(key) && |key| <= 10 && Value(key) < 0xffff_ffff
  }

  /** Array indices come first, by value; the other keys follow, here in sorted order. */
  predicate Before(a: string, b: string) {
    if IsIndex(a) && IsIndex(b) then Value(a) < Value(b)
    else if IsIndex(a) || IsIndex(b) then IsIndex(a)
    else Less(a, b)
  }

  lemma {:induction false} LeadingDigit(s: string)
    requires Digits(s) && s[0] != '0'
    ensures Value(s) >= 1
  {
    if |s| > 1 {
      LeadingDigit(s[..|s| - 1]);
    } else {
      assert s[..0] == "" && Value("") == 0;
    }
  }

  lemma ValueSplit(s: string)
    requires Digits(s)
    ensures Value(s) == Value(s[..|s| - 1]) * 10 + (s[|s| - 1] - '0') as int
  {
  }

  lemma LastDigit(u: nat, v: nat, d: nat, e: nat)
    requires u * 10 + d == v * 10 + e && d < 10 && e < 10
    ensures u == v && d == e
  {
  }

  predicate NoLeadingZero(s: string) {
    Digits(s) && (s[0] == '0' ==> s == "0")
  }

  lemma FrontDigits(s: string)
    requires NoLeadingZero(s)
    ensures var x := s[..|s| - 1];
            && s == x + [s[|s| - 1]] && '0' <= s[|s| - 1] <= '9'
            && (x != "" ==> NoLeadingZero(x) && x[0] != '0')
            && (forall i :: 0 <= i < |x| ==> '0' <= x[i] <= '9')
  {
  }

  /** Distinct indices have distinct values. */
  lemma {:induction false} ValueTells(a: string, b: string)
    requires NoLeadingZero(a) && NoLeadingZero(b) && Value(a) == Value(b)
    ensures a == b
    decreases |a|
  {
    ValueSplit(a);
    ValueSplit(b);
    FrontDigits(a);
    FrontDigits(b);
    assert Value("") == 0;
    hide Value, NoLeadingZero;
    var x, y := a[..|a| - 1], b[..|b| - 1];
    LastDigit(Value(x), Value(y), (a[|a| - 1] - '0') as int, (b[|b| - 1] - '0') as int);
    if x == "" && y != "" {
      DigitsOf(y);
      LeadingDigit(y);
    } else if x != "" && y == "" {
      DigitsOf(x);
      LeadingDigit(x);
    } else if x != "" {
      ValueTells(x, y);
    }
  }

  lemma DigitsOf(s: string)
    requires NoLeadingZero(s)
    ensures Digits(s)
  {
  }

  lemma BeforeIsOrder(a: string, b: string)
    ensures a == b || Before(a, b) || Before(b, a)
    ensures !(Before(a, b) && Before(b, a))
    ensures !Before(a, a)
  {
    LessTotal(a, b);
    LessTotal(a, a);
    if IsIndex(a) && IsIndex(b) && Value(a) == Value(b) {
      ValueTells(a, b);
    }
    hide Less, Value, Digits;
  }

  lemma BeforeTransitive(a: string, b: string, c: string)
    requires Before(a, b) && Before(b, c)
    ensures Before(a, c)
  {
    if !IsIndex(a) && !IsIndex(b) && !IsIndex(c) {
      LessTransitive(a, b, c);
    }
  }

  predicate Ordered(ms: seq<Member>) {
    forall i, j :: 0 <= i < j < |ms| ==> Before(ms[i].key, ms[j].key)
  }

  // ----- rebuilding an object -----

  predicate GoesBefore(key: string, other: string) {
    IsIndex(key) && (!IsIndex(other) || Value(key) < Value(other))
  }

  lemma PlaceOf(key: string, other: string)
    ensures GoesBefore(key, other) ==> Before(key, other)
    ensures !GoesBefore(key, other) && key != other ==> Before(other, key) || (!IsIndex(other) && Less(key, other))
  {
    BeforeIsOrder(key, other);
    hide Less, Value, IsIndex;
  }

  /** Adding a new key to an object: an index goes to its place among the indices, any other key to the end. */
  function Define(ms: seq<Member>, m: Member): seq<Member> {
    if ms == [] then [m]
    else if GoesBefore(m.key, ms[0].key) then [m] + ms
    else [ms[0]] + Define(ms[1..], m)
  }

  function Position(ms: seq<Member>, key: string): (i: nat)
    requires Named(ms, key)
    ensures i < |ms| && ms[i].key == key
  {
    if ms[0].key == key then 0
    else
      assert forall i :: 0 < i < |ms| ==> ms[i] == ms[1..][i - 1];
      assert Named(ms[1..], key);
      Position(ms[1..], key) + 1
  }

  function Find(ms: seq<Member>, key: string): Json
    requires Named(ms, key)
  {
    ms[Position(ms, key)].value
  }

  predicate Named(ms: seq<Member>, key: string) {
    exists i :: 0 <= i < |ms| && ms[i].key == key
  }

  // ----- the tree a value denotes -----

  /** Unordered objects: a set of names, each with a value. */
  datatype Tree =
    | TNull
    | TBool(b: bool)
    | TNum(text: string)
    | TStr(s: string)
    | TArr(items: seq<Tree>)
    | TObj(members: map<string, Tree>)

  function Meaning(v: Json): Tree
    decreases v, 1
  {
    match v
    case JNull => TNull
    case JBool(b) => TBool(b)
    case JNum(text) => TNum(text)
    case JStr(s) => TStr(s)
    case JArr(items) => TArr(ItemsMeaning(items))
    case JObj(ms) => TObj(MembersMeaning(ms))
  }

  function ItemsMeaning(items: seq<Json>): seq<Tree>
    decreases items, 0
  {
    if items == [] then [] else [Meaning(items[0])] + ItemsMeaning(items[1..])
  }

  function MembersMeaning(ms: seq<Member>): map<string, Tree>
    decreases ms, 0
  {
    if ms == [] then map[] else MembersMeaning(ms[1..])[ms[0].key := Meaning(ms[0].value)]
  }

  /** Every object lists its keys in enumeration order. */
  predicate Canonical(v: Json) {
    match v
    case JArr(items) => forall i :: 0 <= i < |items| ==> Canonical(items[i])
    case JObj(ms) => Ordered(ms) && forall i :: 0 <= i < |ms| ==> Canonical(ms[i].value)
    case _ => true
  }

  lemma {:induction false} MembersMeaningAt(ms: seq<Member>, key: string)
    ensures key in MembersMeaning(ms) <==> Named(ms, key)
    ensures Named(ms, key) ==> MembersMeaning(ms)[key] == Meaning(Find(ms, key))
  {
    if ms != [] {
      MembersMeaningAt(ms[1..], key);
      assert ms == [ms[0]] + ms[1..];
      assert Named(ms, key) <==> ms[0].key == key || Named(ms[1..], key) by {
        assert forall i :: 0 <= i < |ms[1..]| ==> ms[1..][i] == ms[i + 1];
      }
    }
  }

  /** Defining a new key adds it to what the object denotes. */
  lemma {:induction false} DefineMeaning(ms: seq<Member>, m: Member)
    requires !Named(ms, m.key)
    ensures MembersMeaning(Define(ms, m)) == MembersMeaning(ms)[m.key := Meaning(m.value)]
  {
    hide GoesBefore, Meaning;
    if ms == [] {
      assert [m][1..] == [];
    } else if GoesBefore(m.key, ms[0].key) {
      assert ([m] + ms)[1..] == ms;
    } else {
      assert !Named(ms[1..], m.key) by {
        assert forall i :: 0 <= i < |ms[1..]| ==> ms[1..][i] == ms[i + 1];
      }
      DefineMeaning(ms[1..], m);
      assert ([ms[0]] + Define(ms[1..], m))[1..] == Define(ms[1..], m);
      assert ms[0].key != m.key;
    }
  }

  lemma {:induction false} DefineMembers(ms: seq<Member>, m: Member)
    ensures forall x :: x in Define(ms, m) <==> x in ms || x == m
  {
    hide GoesBefore;
    if ms != [] {
      DefineMembers(ms[1..], m);
      assert ms == [ms[0]] + ms[1..];
    }
  }

  lemma OrderedCons(m: Member, ms: seq<Member>)
    ensures Ordered([m] + ms) <==> Ordered(ms) && forall x :: x in ms ==> Before(m.key, x.key)
  {
    hide Before;
    var all := [m] + ms;
    if Ordered(all) {
      forall i, j | 0 <= i < j < |ms|
        ensures Before(ms[i].key, ms[j].key)
      {
        assert ms[i] == all[i + 1] && ms[j] == all[j + 1];
      }
      forall x | x in ms
        ensures Before(m.key, x.key)
      {
        var j :| 0 <= j < |ms| && ms[j] == x;
        assert all[0] == m && all[j + 1] == x;
      }
    }
    if Ordered(ms) && forall x :: x in ms ==> Before(m.key, x.key) {
      forall i, j | 0 <= i < j < |all|
        ensures Before(all[i].key, all[j].key)
      {
        assert all[j] == ms[j - 1] && ms[j - 1] in ms;
        assert i > 0 ==> all[i] == ms[i - 1];
      }
    }
  }

  /**
   * Keys arriving in sorted order, each put where the language puts it, are in enumeration order
   * at every step.
   */
  lemma {:induction false} DefineKeepsOrder(ms: seq<Member>, m: Member)
    requires Ordered(ms) && forall x :: x in ms ==> x.key != m.key
    requires forall x :: x in ms && !IsIndex(x.key) ==> Less(x.key, m.key)
    ensures Ordered(Define(ms, m))
  {
    hide IsIndex, Less, Value, GoesBefore, Before;
    if ms == [] {
    } else {
      assert ms == [ms[0]] + ms[1..];
      assert ms[0] in ms && forall x :: x in ms[1..] ==> x in ms;
      OrderedCons(ms[0], ms[1..]);
      PlaceOf(m.key, ms[0].key);
      LessTotal(m.key, ms[0].key);
      if GoesBefore(m.key, ms[0].key) {
        forall x | x in ms
          ensures Before(m.key, x.key)
        {
          if x != ms[0] {
            BeforeTransitive(m.key, ms[0].key, x.key);
          }
        }
        OrderedCons(m, ms);
      } else {
        DefineKeepsOrder(ms[1..], m);
        DefineMembers(ms[1..], m);
        OrderedCons(ms[0], Define(ms[1..], m));
      }
    }
  }

  // ----- canonical values are determined by their trees -----

  lemma TailMeaning(ms: seq<Member>)
    requires ms != [] && Ordered(ms)
    ensures MembersMeaning(ms[1..]) == MembersMeaning(ms) - {ms[0].key}
    ensures MembersMeaning(ms)[ms[0].key] == Meaning(ms[0].value)
    ensures Ordered(ms[1..]) && forall x :: x in ms[1..] ==> Before(ms[0].key, x.key)
  {
    hide Before, Meaning;
    assert ms == [ms[0]] + ms[1..];
    OrderedCons(ms[0], ms[1..]);
    MembersMeaningAt(ms[1..], ms[0].key);
    if Named(ms[1..], ms[0].key) {
      var i :| 0 <= i < |ms[1..]| && ms[1..][i].key == ms[0].key;
      assert ms[1..][i] in ms[1..];
      BeforeIsOrder(ms[0].key, ms[0].key);
    }
  }

  /** The first key of an ordered object is among the keys of any object that denotes the same. */
  lemma FirstKeys(ms: seq<Member>, ns: seq<Member>)
    requires ms != [] && ns != [] && Ordered(ms) && Ordered(ns) && MembersMeaning(ms).Keys == MembersMeaning(ns).Keys
    ensures !Before(ms[0].key, ns[0].key)
  {
    hide Before, Meaning;
    MembersMeaningAt(ns, ms[0].key);
    assert ms[0].key in MembersMeaning(ms);
    var j :| 0 <= j < |ns| && ns[j].key == ms[0].key;
    BeforeIsOrder(ms[0].key, ns[0].key);
    assert j > 0 ==> Before(ns[0].key, ns[j].key);
  }

  lemma {:induction false} ItemsUnique(xs: seq<Json>, ys: seq<Json>)
    requires (forall i :: 0 <= i < |xs| ==> Canonical(xs[i])) && (forall i :: 0 <= i < |ys| ==> Canonical(ys[i]))
    requires ItemsMeaning(xs) == ItemsMeaning(ys)
    ensures xs == ys
    decreases xs, 0
  {
    hide Meaning;
    if xs != [] && ys != [] {
      assert ItemsMeaning(xs)[1..] == ItemsMeaning(xs[1..]) && ItemsMeaning(ys)[1..] == ItemsMeaning(ys[1..]);
      assert ItemsMeaning(xs)[0] == Meaning(xs[0]) && ItemsMeaning(ys)[0] == Meaning(ys[0]);
      Unique(xs[0], ys[0]);
      ItemsUnique(xs[1..], ys[1..]);
      assert xs == [xs[0]] + xs[1..] && ys == [ys[0]] + ys[1..];
    }
  }

  lemma NoMembers(ms: seq<Member>)
    ensures MembersMeaning(ms) == map[] <==> ms == []
  {
    assert ms != [] ==> ms[0].key in MembersMeaning(ms);
  }

  lemma {:induction false} MembersUnique(ms: seq<Member>, ns: seq<Member>)
    requires Ordered(ms) && Ordered(ns)
    requires (forall i :: 0 <= i < |ms| ==> Canonical(ms[i].value)) && (forall i :: 0 <= i < |ns| ==> Canonical(ns[i].value))
    requires MembersMeaning(ms) == MembersMeaning(ns)
    ensures ms == ns
    decreases ms, 0
  {
    if ms != [] && ns != [] {
      FirstKeys(ms, ns);
      FirstKeys(ns, ms);
      BeforeIsOrder(ms[0].key, ns[0].key);
      TailMeaning(ms);
      TailMeaning(ns);
      hide Before, Meaning, MembersMeaning, Ordered;
      Unique(ms[0].value, ns[0].value);
      MembersUnique(ms[1..], ns[1..]);
      assert ms == [ms[0]] + ms[1..] && ns == [ns[0]] + ns[1..];
    } else {
      NoMembers(ms);
      NoMembers(ns);
    }
  }

  /** Two canonical values that denote the same tree are the same value, keys in the same order. */
  lemma {:induction false} Unique(a: Json, b: Json)
    requires Canonical(a) && Canonical(b) && Meaning(a) == Meaning(b)
    ensures a == b
    decreases a, 1
  {
    if a.JArr? && b.JArr? {
      ItemsUnique(a.items, b.items);
    } else if a.JObj? && b.JObj? {
      MembersUnique(a.members, b.members);
    }
  }

  // ----- the code: rebuild, then print -----

  /** `sortKeys`. */
  method SortKeys(v: Json) returns (out: Json)
    requires Parsed(v)
    ensures Parsed(out) && Canonical(out) && Meaning(out) == Meaning(v)
    decreases v
  {
    match v
    case JArr(items) =>
      var sorted := [];
      for i := 0 to |items|
        invariant |sorted| == i && ItemsMeaning(sorted) == ItemsMeaning(items[..i])
        invariant forall j :: 0 <= j < i ==> Parsed(sorted[j]) && Canonical(sorted[j])
      {
        hide Meaning, Canonical;
        var item := SortKeys(items[i]);
        assert items[..i + 1] == items[..i] + [items[i]];
        ItemsSnoc(items[..i], items[i]);
        ItemsSnoc(sorted, item);
        sorted := sorted + [item];
      }
      assert items[..|items|] == items;
      return JArr(sorted);
    case JObj(ms) =>
      var sorted := SortMembers(ms);
      return JObj(sorted);
    case _ =>
      return v;
  }

  method SortMembers(ms: seq<Member>) returns (out: seq<Member>)
    requires Distinct(Keys(ms)) && forall i :: 0 <= i < |ms| ==> Parsed(ms[i].value)
    ensures Distinct(Keys(out)) && Ordered(out) && MembersMeaning(out) == MembersMeaning(ms)
    ensures forall i :: 0 <= i < |out| ==> Parsed(out[i].value) && Canonical(out[i].value)
    decreases ms
  {
    hide Meaning, Canonical, Parsed, Define, Position, Named, PartlySorted, StrictlySorted, Elements;
    var keys := Sort(Keys(ms));
    SortSorts(Keys(ms));
    out := [];
    NothingDefined(ms);
    for i := 0 to |keys|
      invariant PartlySorted(ms, out, keys[..i])
    {
      var key := keys[i];
      SortedPrefix(keys, i);
      KeyIsNamed(ms, key);
      OnePartOf(ms, key);
      var value := SortKeys(ms[Position(ms, key)].value);
      DefineKeepsSorted(ms, out, keys, i, value);
      out := Define(out, Member(key, value));
    }
    assert keys[..|keys|] == keys;
    KeysOf(ms);
    WholeSorted(ms, out, keys);
  }

  /** The object built so far holds the members of `ms` under the given keys. */
  ghost predicate PartlySorted(ms: seq<Member>, out: seq<Member>, keys: seq<string>) {
    && Ordered(out)
    && (forall x :: x in out ==> x.key in keys && Parsed(x.value) && Canonical(x.value))
    && MembersMeaning(out).Keys == Elements(keys)
    && forall key :: key in MembersMeaning(out) ==> Named(ms, key) && MembersMeaning(out)[key] == Meaning(Find(ms, key))
  }

  lemma OnePartOf(ms: seq<Member>, key: string)
    requires Named(ms, key) && forall i :: 0 <= i < |ms| ==> Parsed(ms[i].value)
    ensures Parsed(Find(ms, key)) && Find(ms, key) == ms[Position(ms, key)].value
  {
    hide Parsed, Position;
  }

  lemma DefineKeepsSorted(ms: seq<Member>, out: seq<Member>, keys: seq<string>, i: nat, value: Json)
    requires StrictlySorted(keys) && i < |keys| && PartlySorted(ms, out, keys[..i]) && Named(ms, keys[i])
    requires Parsed(value) && Canonical(value) && Meaning(value) == Meaning(Find(ms, keys[i]))
    ensures PartlySorted(ms, Define(out, Member(keys[i], value)), keys[..i + 1])
  {
    hide Meaning, Canonical, Parsed, Before, Less, IsIndex, Define, Ordered, Find, MembersMeaning, Named;
    var m := Member(keys[i], value);
    SortedPrefix(keys, i);
    FreshKey(out, keys, i);
    DefineMeaning(out, m);
    DefineMembers(out, m);
    DefineKeepsOrder(out, m);
  }

  lemma WholeSorted(ms: seq<Member>, out: seq<Member>, keys: seq<string>)
    requires PartlySorted(ms, out, keys) && forall key :: key in Elements(keys) <==> Named(ms, key)
    ensures Distinct(Keys(out)) && Ordered(out) && MembersMeaning(out) == MembersMeaning(ms)
    ensures forall i :: 0 <= i < |out| ==> Parsed(out[i].value) && Canonical(out[i].value)
  {
    hide Meaning, Canonical, Parsed, Find, MembersMeaning, Named, Elements;
    OrderedIsDistinct(out);
    AllDefined(ms, out);
    assert forall i :: 0 <= i < |out| ==> out[i] in out;
  }

  lemma ItemsSnoc(xs: seq<Json>, x: Json)
    ensures ItemsMeaning(xs + [x]) == ItemsMeaning(xs) + [Meaning(x)]
  {
    hide Meaning;
    if xs == [] {
      assert [] + [x] == [x] && [x][1..] == [];
    } else {
      assert (xs + [x])[1..] == xs[1..] + [x];
      ItemsSnoc(xs[1..], x);
    }
  }

  lemma NothingDefined(ms: seq<Member>)
    ensures PartlySorted(ms, [], [])
  {
    NoElements([]);
  }

  lemma SortedPrefix(keys: seq<string>, i: nat)
    requires StrictlySorted(keys) && i < |keys|
    ensures keys[..i + 1] == keys[..i] + [keys[i]]
    ensures keys[i] !in keys[..i] && forall key :: key in keys[..i] ==> Less(key, keys[i])
    ensures Elements(keys[..i + 1]) == Elements(keys[..i]) + {keys[i]}
    ensures keys[i] in Elements(keys)
  {
    hide Less;
    LessTotal(keys[i], keys[i]);
    ElementsSnoc(keys[..i], keys[i]);
    assert keys[..i + 1] == keys[..i] + [keys[i]];
  }

  lemma KeyIsNamed(ms: seq<Member>, key: string)
    requires key in Elements(Keys(ms))
    ensures Named(ms, key)
  {
    var i :| 0 <= i < |Keys(ms)| && Keys(ms)[i] == key;
    assert ms[i].key == key;
  }

  lemma FreshKey(out: seq<Member>, keys: seq<string>, i: nat)
    requires i < |keys| && keys[i] !in keys[..i] && forall x :: x in out ==> x.key in keys[..i]
    ensures !Named(out, keys[i]) && forall x :: x in out ==> x.key != keys[i]
  {
    assert forall j :: 0 <= j < |out| ==> out[j] in out;
  }

  lemma KeysOf(ms: seq<Member>)
    ensures forall key :: key in Elements(Keys(ms)) <==> Named(ms, key)
  {
    forall key
      ensures key in Elements(Keys(ms)) <==> Named(ms, key)
    {
      if key in Elements(Keys(ms)) {
        KeyIsNamed(ms, key);
      }
      if Named(ms, key) {
        var i :| 0 <= i < |ms| && ms[i].key == key;
        assert Keys(ms)[i] == key;
      }
    }
  }

  lemma AllDefined(ms: seq<Member>, out: seq<Member>)
    requires forall key :: key in MembersMeaning(out) <==> Named(ms, key)
    requires forall key :: key in MembersMeaning(out) ==> Named(ms, key) && MembersMeaning(out)[key] == Meaning(Find(ms, key))
    ensures MembersMeaning(out) == MembersMeaning(ms)
  {
    forall key
      ensures key in MembersMeaning(ms) <==> Named(ms, key)
      ensures Named(ms, key) ==> MembersMeaning(ms)[key] == Meaning(Find(ms, key))
    {
      MembersMeaningAt(ms, key);
    }
    hide Meaning, MembersMeaning, Named, Find;
  }

  lemma OrderedIsDistinct(ms: seq<Member>)
    requires Ordered(ms)
    ensures Distinct(Keys(ms))
  {
    forall i, j | 0 <= i < j < |ms|
      ensures ms[i].key != ms[j].key
    {
      BeforeIsOrder(ms[i].key, ms[i].key);
      assert Before(ms[i].key, ms[j].key);
    }
    hide Before;
  }

  // ----- printing -----

  function Hex(d: nat): char
    requires d < 16
  {
    "0123456789abcdef"[d]
  }

  /** How one character is written inside a string. */
  function Escape(c: char): string {
    if c == '"' then "\\\""
    else if c == '\\' then "\\\\"
    else if c == '\U{8}' then "\\b"
    else if c == '\U{c}' then "\\f"
    else if c == '\n' then "\\n"
    else if c == '\r' then "\\r"
    else if c == '\t' then "\\t"
    else if c < ' ' then "\\u00" + [Hex(c as int / 16), Hex(c as int % 16)]
    else [c]
  }

  function EscapeAll(s: string): string {
    if s == "" then "" else Escape(s[0]) + EscapeAll(s[1..])
  }

  function Quote(s: string): string {
    "\"" + EscapeAll(s) + "\""
  }

  /** `JSON.stringify` without white space. */
  function Print(v: Json): string
    decreases v, 1
  {
    match v
    case JNull => "null"
    case JBool(b) => if b then "true" else "false"
    case JNum(text) => text
    case JStr(s) => Quote(s)
    case JArr(items) => "[" + PrintItems(items) + "]"
    case JObj(ms) => "{" + PrintMembers(ms) + "}"
  }

  function PrintItems(items: seq<Json>): string
    decreases items, 0
  {
    if items == [] then ""
    else if |items| == 1 then Print(items[0])
    else Print(items[0]) + "," + PrintItems(items[1..])
  }

  function PrintMembers(ms: seq<Member>): string
    decreases ms, 0
  {
    if ms == [] then ""
    else
      var first := Quote(ms[0].key) + ":" + Print(ms[0].value);
      if |ms| == 1 then first else first + "," + PrintMembers(ms[1..])
  }
}
