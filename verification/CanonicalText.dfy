/**
 * The printer is unambiguous, so the canonical string decides whether two decks are the same
 * tree: the text that is hashed is a complete invariant.
 */
module CanonicalText {
  import opened Prelude
  import opened Strings
  import opened CanonicalJson
  import opened SeqFacts

  // ----- strings side by side -----

  lemma SplitSame(a: string, b: string, x: string, y: string)
    requires a + x == b + y && |a| == |b|
    ensures a == b && x == y
  {
    assert a == (a + x)[..|a|] == (b + y)[..|b|] == b;
    assert x == (a + x)[|a|..] == (b + y)[|b|..] == y;
  }

  lemma HeadOf(a: string, x: string)
    requires a != ""
    ensures (a + x)[0] == a[0] && (|a| > 1 ==> (a + x)[1] == a[1])
  {
  }

  // ----- escapes -----

  lemma HexTells(d: nat, e: nat)
    requires d < 16 && e < 16
    ensures Hex(d) == Hex(e) ==> d == e
  {
  }

  lemma EscapeShape(c: char)
    ensures |Escape(c)| == if Escape(c)[0] != '\\' then 1 else if Escape(c)[1] != 'u' then 2 else 6
    ensures Escape(c) != "" && Escape(c)[0] != '"'
  {
  }

  lemma EscapeTells(c: char, d: char)
    requires Escape(c) == Escape(d)
    ensures c == d
  {
    if c < ' ' && d < ' ' {
      HexTells(c as int / 16, d as int / 16);
      HexTells(c as int % 16, d as int % 16);
      var s, t := Escape(c), Escape(d);
      hide Hex;
      assert |s| == 6 ==> s[4] == Hex(c as int / 16) && s[5] == Hex(c as int % 16);
      assert |t| == 6 ==> t[4] == Hex(d as int / 16) && t[5] == Hex(d as int % 16);
    }
  }

  lemma EscapeSplits(c: char, d: char, x: string, y: string)
    requires Escape(c) + x == Escape(d) + y
    ensures c == d && x == y
  {
    EscapeShape(c);
    EscapeShape(d);
    HeadOf(Escape(c), x);
    HeadOf(Escape(d), y);
    hide Escape;
    SplitSame(Escape(c), Escape(d), x, y);
    EscapeTells(c, d);
  }

  lemma EscapeAllCons(s: string, x: string)
    requires s != ""
    ensures EscapeAll(s) + x == Escape(s[0]) + (EscapeAll(s[1..]) + x)
  {
    hide Escape;
    Assoc(Escape(s[0]), EscapeAll(s[1..]), x);
  }

  lemma {:induction false} EscapedTells(s: string, t: string, x: string, y: string)
    requires EscapeAll(s) + ("\"" + x) == EscapeAll(t) + ("\"" + y)
    ensures s == t && x == y
  {
    hide Escape, EscapeAll;
    if s != "" {
      EscapeAllCons(s, "\"" + x);
      EscapeShape(s[0]);
      HeadOf(Escape(s[0]), EscapeAll(s[1..]) + ("\"" + x));
    }
    if t != "" {
      EscapeAllCons(t, "\"" + y);
      EscapeShape(t[0]);
      HeadOf(Escape(t[0]), EscapeAll(t[1..]) + ("\"" + y));
    }
    NothingEscaped(x);
    NothingEscaped(y);
    if s != "" && t != "" {
      EscapeSplits(s[0], t[0], EscapeAll(s[1..]) + ("\"" + x), EscapeAll(t[1..]) + ("\"" + y));
      EscapedTells(s[1..], t[1..], x, y);
      assert s == [s[0]] + s[1..] && t == [t[0]] + t[1..];
    } else if s == "" && t == "" {
      SplitSame("\"", "\"", x, y);
    }
  }

  lemma NothingEscaped(x: string)
    ensures EscapeAll("") + ("\"" + x) == "\"" + x
  {
  }

  lemma QuoteTells(s: string, t: string, x: string, y: string)
    requires Quote(s) + x == Quote(t) + y
    ensures s == t && x == y
  {
    hide EscapeAll;
    QuoteOpen(s, x);
    QuoteOpen(t, y);
    hide Quote;
    SplitSame("\"", "\"", EscapeAll(s) + ("\"" + x), EscapeAll(t) + ("\"" + y));
    EscapedTells(s, t, x, y);
  }

  lemma QuoteOpen(s: string, x: string)
    ensures Quote(s) + x == "\"" + (EscapeAll(s) + ("\"" + x))
  {
    hide EscapeAll;
    Assoc("\"" + EscapeAll(s), "\"", x);
    Assoc("\"", EscapeAll(s), "\"" + x);
  }

  // ----- values -----

  /** What may follow a value: nothing, a comma, or a closing bracket. */
  predicate Ends(x: string) {
    x == "" || x[0] == ',' || x[0] == ']' || x[0] == '}'
  }

  /** How many number characters a text starts with. */
  function Lead(s: string): nat {
    if s == "" || !NumberChar(s[0]) then 0 else 1 + Lead(s[1..])
  }

  lemma {:induction false} LeadOf(a: string, x: string)
    requires Ends(x) && forall i :: 0 <= i < |a| ==> NumberChar(a[i])
    ensures Lead(a + x) == |a|
  {
    if a == "" {
      assert a + x == x;
    } else {
      assert (a + x)[1..] == a[1..] + x;
      LeadOf(a[1..], x);
    }
  }

  lemma NumberTells(a: string, b: string, x: string, y: string)
    requires NumberText(a) && NumberText(b) && Ends(x) && Ends(y) && a + x == b + y
    ensures a == b && x == y
  {
    LeadOf(a, x);
    LeadOf(b, y);
    SplitSame(a, b, x, y);
  }

  /** The first character tells the kind of a value. */
  function Kind(c: char): int {
    if c == 'n' then 0
    else if c == 't' then 1
    else if c == 'f' then 2
    else if NumberChar(c) then 3
    else if c == '"' then 4
    else if c == '[' then 5
    else if c == '{' then 6
    else 7
  }

  function KindOf(v: Json): int {
    match v
    case JNull => 0
    case JBool(b) => if b then 1 else 2
    case JNum(_) => 3
    case JStr(_) => 4
    case JArr(_) => 5
    case JObj(_) => 6
  }

  lemma PrintHead(v: Json)
    requires Parsed(v)
    ensures Print(v) != "" && Kind(Print(v)[0]) == KindOf(v)
  {
    hide EscapeAll, PrintItems, PrintMembers;
  }

  function RestItems(items: seq<Json>, x: string): string
    requires items != []
  {
    if |items| == 1 then "]" + x else "," + (PrintItems(items[1..]) + ("]" + x))
  }

  function RestMembers(ms: seq<Member>, x: string): string
    requires ms != []
  {
    if |ms| == 1 then "}" + x else "," + (PrintMembers(ms[1..]) + ("}" + x))
  }

  lemma ItemsOpen(items: seq<Json>, x: string)
    requires items != []
    ensures PrintItems(items) + ("]" + x) == Print(items[0]) + RestItems(items, x)
  {
    hide Print;
    if |items| > 1 {
      Assoc(Print(items[0]) + ",", PrintItems(items[1..]), "]" + x);
      Assoc(Print(items[0]), ",", PrintItems(items[1..]) + ("]" + x));
    }
  }

  lemma MembersOpen(ms: seq<Member>, x: string)
    requires ms != []
    ensures PrintMembers(ms) + ("}" + x) == Quote(ms[0].key) + (":" + (Print(ms[0].value) + RestMembers(ms, x)))
  {
    hide Print, Quote;
    var k, v := Quote(ms[0].key), Print(ms[0].value);
    if |ms| > 1 {
      Assoc(k + ":" + v + ",", PrintMembers(ms[1..]), "}" + x);
      Assoc(k + ":" + v, ",", PrintMembers(ms[1..]) + ("}" + x));
    }
    Assoc(k + ":", v, RestMembers(ms, x));
    Assoc(k, ":", v + RestMembers(ms, x));
  }

  lemma RestsEnd(items: seq<Json>, ms: seq<Member>, x: string)
    ensures items != [] ==> RestItems(items, x) != "" && RestItems(items, x)[0] == (if |items| == 1 then ']' else ',')
    ensures ms != [] ==> RestMembers(ms, x) != "" && RestMembers(ms, x)[0] == (if |ms| == 1 then '}' else ',')
    ensures items != [] ==> Ends(RestItems(items, x))
    ensures items != [] ==> RestItems(items, x) == (if |items| == 1 then "]" + x else "," + (PrintItems(items[1..]) + ("]" + x)))
    ensures ms != [] ==> Ends(RestMembers(ms, x))
    ensures ms != [] ==> RestMembers(ms, x) == (if |ms| == 1 then "}" + x else "," + (PrintMembers(ms[1..]) + ("}" + x)))
  {
    hide PrintItems, PrintMembers;
  }

  lemma {:induction false} ItemsTell(xs: seq<Json>, ys: seq<Json>, x: string, y: string)
    requires (forall i :: 0 <= i < |xs| ==> Parsed(xs[i])) && (forall i :: 0 <= i < |ys| ==> Parsed(ys[i]))
    requires PrintItems(xs) + ("]" + x) == PrintItems(ys) + ("]" + y)
    ensures xs == ys && x == y
    decreases xs, 0
  {
    hide *;
    ItemsHeads(xs, x);
    ItemsHeads(ys, y);
    if xs != [] && ys != [] {
      ItemsOpen(xs, x);
      ItemsOpen(ys, y);
      RestsEnd(xs, [], x);
      RestsEnd(ys, [], y);
      PrintTells(xs[0], ys[0], RestItems(xs, x), RestItems(ys, y));
      if |xs| == 1 {
        SplitSame("]", "]", x, y);
      } else {
        SplitSame(",", ",", PrintItems(xs[1..]) + ("]" + x), PrintItems(ys[1..]) + ("]" + y));
        ItemsTell(xs[1..], ys[1..], x, y);
      }
      assert xs == [xs[0]] + xs[1..] && ys == [ys[0]] + ys[1..];
    } else if xs == [] && ys == [] {
      SplitSame("]", "]", x, y);
    }
  }

  lemma ItemsHeads(items: seq<Json>, x: string)
    requires forall i :: 0 <= i < |items| ==> Parsed(items[i])
    ensures (PrintItems(items) + ("]" + x))[0] == ']' <==> items == []
    ensures items == [] ==> PrintItems(items) + ("]" + x) == "]" + x
  {
    if items == [] {
      hide Print, Parsed;
      assert PrintItems(items) == "" && ("]" + x)[0] == ']';
    } else {
      hide Print, PrintItems, RestItems, Parsed;
      ItemsOpen(items, x);
      PrintHead(items[0]);
      HeadOf(Print(items[0]), RestItems(items, x));
      NoBracket(items[0], Print(items[0])[0]);
    }
  }

  lemma NoBracket(v: Json, c: char)
    requires Kind(c) == KindOf(v)
    ensures c != ']'
  {
  }

  lemma MembersHeads(ms: seq<Member>, x: string)
    ensures (PrintMembers(ms) + ("}" + x))[0] == '}' <==> ms == []
    ensures ms == [] ==> PrintMembers(ms) + ("}" + x) == "}" + x
  {
    if ms == [] {
      hide Print;
      assert PrintMembers(ms) == "" && ("}" + x)[0] == '}';
    } else {
      hide Print, EscapeAll, PrintMembers, RestMembers;
      MembersOpen(ms, x);
      assert Quote(ms[0].key)[0] == '"';
    }
  }

  lemma MemberTells(m: Member, n: Member, x: string, y: string)
    requires Parsed(m.value) && Parsed(n.value) && Ends(x) && Ends(y)
    requires Quote(m.key) + (":" + (Print(m.value) + x)) == Quote(n.key) + (":" + (Print(n.value) + y))
    ensures m.key == n.key && Print(m.value) + x == Print(n.value) + y
  {
    hide *;
    var p, q := Print(m.value) + x, Print(n.value) + y;
    QuoteTells(m.key, n.key, ":" + p, ":" + q);
    SplitSame(":", ":", p, q);
  }

  lemma {:induction false} MembersTell(ms: seq<Member>, ns: seq<Member>, x: string, y: string)
    requires (forall i :: 0 <= i < |ms| ==> Parsed(ms[i].value)) && (forall i :: 0 <= i < |ns| ==> Parsed(ns[i].value))
    requires PrintMembers(ms) + ("}" + x) == PrintMembers(ns) + ("}" + y)
    ensures ms == ns && x == y
    decreases ms, 0
  {
    hide *;
    MembersHeads(ms, x);
    MembersHeads(ns, y);
    if ms != [] && ns != [] {
      MembersOpen(ms, x);
      MembersOpen(ns, y);
      RestsEnd([], ms, x);
      RestsEnd([], ns, y);
      MemberTells(ms[0], ns[0], RestMembers(ms, x), RestMembers(ns, y));
      PrintTells(ms[0].value, ns[0].value, RestMembers(ms, x), RestMembers(ns, y));
      if |ms| == 1 {
        SplitSame("}", "}", x, y);
      } else {
        SplitSame(",", ",", PrintMembers(ms[1..]) + ("}" + x), PrintMembers(ns[1..]) + ("}" + y));
        MembersTell(ms[1..], ns[1..], x, y);
      }
      assert ms == [ms[0]] + ms[1..] && ns == [ns[0]] + ns[1..];
    } else if ms == [] && ns == [] {
      SplitSame("}", "}", x, y);
    }
  }

  /** A printed value followed by a delimiter can be read in one way only. */
  lemma {:induction false} PrintTells(a: Json, b: Json, x: string, y: string)
    requires Parsed(a) && Parsed(b) && Ends(x) && Ends(y) && Print(a) + x == Print(b) + y
    ensures a == b && x == y
    decreases a, 1
  {
    PrintHead(a);
    PrintHead(b);
    HeadOf(Print(a), x);
    HeadOf(Print(b), y);
    assert KindOf(a) == KindOf(b);
    hide PrintItems, PrintMembers, Quote, Kind;
    match a
    case JNull => SplitSame("null", "null", x, y);
    case JBool(t) => SplitSame(if t then "true" else "false", if t then "true" else "false", x, y);
    case JNum(text) => NumberTells(text, b.text, x, y);
    case JStr(s) => QuoteTells(s, b.s, x, y);
    case JArr(items) =>
      BracketsOpen("[", PrintItems(items), "]", x);
      BracketsOpen("[", PrintItems(b.items), "]", y);
      SplitSame("[", "[", PrintItems(items) + ("]" + x), PrintItems(b.items) + ("]" + y));
      ItemsTell(items, b.items, x, y);
    case JObj(ms) =>
      BracketsOpen("{", PrintMembers(ms), "}", x);
      BracketsOpen("{", PrintMembers(b.members), "}", y);
      SplitSame("{", "{", PrintMembers(ms) + ("}" + x), PrintMembers(b.members) + ("}" + y));
      MembersTell(ms, b.members, x, y);
  }

  lemma BracketsOpen(open: string, inner: string, close: string, x: string)
    ensures (open + inner + close) + x == open + (inner + (close + x))
  {
    Assoc(open + inner, close, x);
    Assoc(open, inner, close + x);
  }

  /** Distinct values print differently. */
  lemma PrintIsUnambiguous(a: Json, b: Json)
    requires Parsed(a) && Parsed(b)
    ensures Print(a) == Print(b) <==> a == b
  {
    hide Print, Parsed;
    if Print(a) == Print(b) {
      assert Print(a) + "" == Print(b) + "";
      PrintTells(a, b, "", "");
    }
  }

  // ----- the canonical string -----

  /** `s` is printed from some canonical value that denotes what `v` denotes. */
  ghost predicate IsCanonicalText(v: Json, s: string) {
    exists c :: Parsed(c) && Canonical(c) && Meaning(c) == Meaning(v) && s == Print(c)
  }

  /** The canonical string decides equality as trees, whatever the order of keys. */
  lemma CanonicalTextIsComplete(a: Json, b: Json, s: string, t: string)
    requires IsCanonicalText(a, s) && IsCanonicalText(b, t)
    ensures s == t <==> Meaning(a) == Meaning(b)
  {
    hide Parsed, Canonical, Meaning, Print;
    var c :| Parsed(c) && Canonical(c) && Meaning(c) == Meaning(a) && s == Print(c);
    var d :| Parsed(d) && Canonical(d) && Meaning(d) == Meaning(b) && t == Print(d);
    PrintIsUnambiguous(c, d);
    if Meaning(a) == Meaning(b) {
      Unique(c, d);
    }
  }

  /** The members of a deck other than its time stamp. */
  function WithoutModified(ms: seq<Member>): seq<Member> {
    if ms == [] then []
    else if ms[0].key == "modified" then WithoutModified(ms[1..])
    else [ms[0]] + WithoutModified(ms[1..])
  }

  lemma {:induction false} WithoutModifiedIs(ms: seq<Member>)
    requires Distinct(Keys(ms)) && forall i :: 0 <= i < |ms| ==> Parsed(ms[i].value)
    ensures Parsed(JObj(WithoutModified(ms)))
    ensures forall x :: x in WithoutModified(ms) ==> x in ms
    ensures MembersMeaning(WithoutModified(ms)) == MembersMeaning(ms) - {"modified"}
  {
    if ms != [] {
      hide Meaning, MembersMeaning, Parsed, Distinct, Keys;
      var rest := WithoutModified(ms[1..]);
      HeadIsDistinct(ms);
      WithoutModifiedIs(ms[1..]);
      assert ms == [ms[0]] + ms[1..];
      ConsMeaning(ms);
      if ms[0].key != "modified" {
        ConsParsed(ms[0], rest);
      }
    }
  }

  lemma ConsMeaning(ms: seq<Member>)
    requires ms != []
    ensures MembersMeaning(ms) == MembersMeaning(ms[1..])[ms[0].key := Meaning(ms[0].value)]
    ensures ms[0].key == "modified" ==> MembersMeaning(ms) - {"modified"} == MembersMeaning(ms[1..]) - {"modified"}
    ensures ms[0].key != "modified" ==>
              MembersMeaning(ms) - {"modified"} == (MembersMeaning(ms[1..]) - {"modified"})[ms[0].key := Meaning(ms[0].value)]
  {
    hide Meaning;
  }

  lemma HeadIsDistinct(ms: seq<Member>)
    requires ms != [] && Distinct(Keys(ms))
    ensures Distinct(Keys(ms[1..])) && forall x :: x in ms[1..] ==> x.key != ms[0].key
  {
    assert Keys(ms[1..]) == Keys(ms)[1..];
    forall x | x in ms[1..]
      ensures x.key != ms[0].key
    {
      var i :| 0 <= i < |ms[1..]| && ms[1..][i] == x;
      assert Keys(ms)[i + 1] == x.key && Keys(ms)[0] == ms[0].key;
    }
  }

  lemma ConsParsed(m: Member, rest: seq<Member>)
    requires Parsed(m.value) && Parsed(JObj(rest)) && forall x :: x in rest ==> x.key != m.key
    ensures Parsed(JObj([m] + rest))
    ensures MembersMeaning([m] + rest) == MembersMeaning(rest)[m.key := Meaning(m.value)]
  {
    hide Meaning;
    var all := [m] + rest;
    assert all[1..] == rest;
    forall i, j | 0 <= i < j < |all|
      ensures Keys(all)[i] != Keys(all)[j]
    {
      assert all[j] == rest[j - 1] && rest[j - 1] in rest;
      assert i > 0 ==> all[i] == rest[i - 1] && Keys(rest)[i - 1] != Keys(rest)[j - 1];
    }
  }

  /** `hashBentoDeck` up to the hash: the canonical string of the deck without its time stamp. */
  method CanonicalDeck(ms: seq<Member>) returns (s: string)
    requires Parsed(JObj(ms))
    ensures IsCanonicalText(JObj(WithoutModified(ms)), s)
  {
    WithoutModifiedIs(ms);
    var sorted := SortKeys(JObj(WithoutModified(ms)));
    s := Print(sorted);
  }

  /**
   * Two decks have the same canonical string exactly when they are equal as JSON trees with
   * unordered objects, apart from the top-level time stamp.
   */
  lemma DeckTextIsComplete(ms: seq<Member>, ns: seq<Member>, s: string, t: string)
    requires Parsed(JObj(ms)) && Parsed(JObj(ns))
    requires IsCanonicalText(JObj(WithoutModified(ms)), s) && IsCanonicalText(JObj(WithoutModified(ns)), t)
    ensures s == t <==> MembersMeaning(ms) - {"modified"} == MembersMeaning(ns) - {"modified"}
  {
    WithoutModifiedIs(ms);
    WithoutModifiedIs(ns);
    CanonicalTextIsComplete(JObj(WithoutModified(ms)), JObj(WithoutModified(ns)), s, t);
    hide IsCanonicalText, MembersMeaning, WithoutModified, Parsed;
  }

  // ----- the order of the printed keys -----

  function PowerOfTen(n: nat): nat {
    if n == 0 then 1 else 10 * PowerOfTen(n - 1)
  }

  lemma {:induction false} ValueAtLeast(s: string)
    requires Digits(s) && s[0] != '0'
    ensures Value(s) >= PowerOfTen(|s| - 1)
  {
    ValueSplit(s);
    if |s| > 1 {
      assert Digits(s[..|s| - 1]);
      hide Value, Digits;
      ValueAtLeast(s[..|s| - 1]);
    } else {
      assert s[..0] == "" && Value("") == 0;
    }
  }

  lemma {:induction false} PowersGrow(m: nat, n: nat)
    requires m <= n
    ensures PowerOfTen(m) <= PowerOfTen(n)
  {
    if m < n {
      PowersGrow(m, n - 1);
    }
  }

  /** The array indices are the numbers below 2^32 - 1, written without leading zeros. */
  lemma IndexIff(key: string)
    ensures IsIndex(key) <==> Digits(key) && (key[0] == '0' ==> key == "0") && Value(key) < 4294967295
  {
    hide Value;
    if Digits(key) && NoLeadingZero(key) && |key| > 10 {
      ValueAtLeast(key);
      PowersGrow(10, |key| - 1);
      assert PowerOfTen(5) == 100000 && PowerOfTen(10) == 10000000000;
    }
  }

  /** Enumeration puts the keys of an object in sorted order, as far as array indices go. */
  predicate IndicesFit(ms: seq<Member>) {
    forall i, j :: 0 <= i < |ms| && 0 <= j < |ms| && IsIndex(ms[i].key) && Before(ms[i].key, ms[j].key) ==> Less(ms[i].key, ms[j].key)
  }

  /** The keys of a canonical object are sorted exactly when none is an array index out of line. */
  lemma KeysAreSortedIff(ms: seq<Member>)
    requires Canonical(JObj(ms))
    ensures StrictlySorted(Keys(ms)) <==> IndicesFit(ms)
  {
    hide Less, IsIndex;
    if StrictlySorted(Keys(ms)) {
      forall i, j | 0 <= i < |ms| && 0 <= j < |ms| && IsIndex(ms[i].key) && Before(ms[i].key, ms[j].key)
        ensures Less(ms[i].key, ms[j].key)
      {
        BeforeIsOrder(ms[i].key, ms[j].key);
        assert i < j && Keys(ms)[i] == ms[i].key && Keys(ms)[j] == ms[j].key;
      }
    }
    if IndicesFit(ms) {
      forall i, j | 0 <= i < j < |ms|
        ensures Less(Keys(ms)[i], Keys(ms)[j])
      {
        assert Before(ms[i].key, ms[j].key);
      }
    }
  }

  lemma NineAndTen()
    ensures Before("9", "10") && Less("10", "9")
  {
    assert "10"[..1] == "1" && "1"[..0] == "" && "9"[..0] == "";
    assert Value("1") == 1 && Value("9") == 9 && Value("10") == 10;
  }

  const TEN_NINE: seq<Member> := [Member("10", JNull), Member("9", JNull)]
  const NINE_TEN: seq<Member> := [Member("9", JNull), Member("10", JNull)]

  lemma TwoMembers(a: Member, b: Member)
    requires a.key != b.key && a.value == JNull && b.value == JNull
    ensures MembersMeaning([a, b]) == MembersMeaning([b, a])
    ensures Parsed(JObj([a, b]))
    ensures Before(a.key, b.key) ==> Canonical(JObj([a, b]))
  {
    OneMember(a);
    OneMember(b);
    ConsMeaning([a, b]);
    ConsMeaning([b, a]);
    hide Before, MembersMeaning, Meaning;
    assert [a, b][1..] == [b] && [b, a][1..] == [a];
    assert Keys([a, b]) == [a.key, b.key];
  }

  lemma OneMember(m: Member)
    ensures MembersMeaning([m]) == map[m.key := Meaning(m.value)]
  {
    hide Meaning;
    assert [m][1..] == [];
    assert MembersMeaning([]) == map[];
  }

  lemma NineTenUnsorted()
    ensures !StrictlySorted(Keys(NINE_TEN))
  {
    NineAndTen();
    LessTotal("9", "10");
    hide Less;
    var keys := Keys(NINE_TEN);
    assert keys == ["9", "10"];
    assert !Less(keys[0], keys[1]);
  }

  /** Printed keys need not be sorted: of an object with keys 10 and 9, the canonical text puts 9 first. */
  lemma IndicesAreNotSorted(s: string)
    requires IsCanonicalText(JObj(TEN_NINE), s)
    ensures s == Print(JObj(NINE_TEN)) && !StrictlySorted(Keys(NINE_TEN))
  {
    NineAndTen();
    NineTenUnsorted();
    TwoMembers(NINE_TEN[0], NINE_TEN[1]);
    assert NINE_TEN == [NINE_TEN[0], NINE_TEN[1]] && TEN_NINE == [NINE_TEN[1], NINE_TEN[0]];
    assert Meaning(JObj(TEN_NINE)) == Meaning(JObj(NINE_TEN));
    hide Less, Before, Parsed, Canonical, Meaning, Print;
    assert IsCanonicalText(JObj(TEN_NINE), Print(JObj(NINE_TEN)));
    CanonicalTextIsComplete(JObj(TEN_NINE), JObj(TEN_NINE), s, Print(JObj(NINE_TEN)));
  }
}
