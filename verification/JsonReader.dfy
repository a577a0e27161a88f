/**
 * A reader of JSON text, written from the grammar of RFC 8259 (sections 2 to 7) without white
 * space: what is printed reads back as the value it was printed from.
 */
module JsonReader {
  import opened Prelude
  import opened Strings
  import opened CanonicalJson
  import opened CanonicalText
  import opened SeqFacts

  // ----- strings -----

  function HexValue(c: char): Option<nat> {
    if '0' <= c <= '9' then Some((c - '0') as nat)
    else if 'a' <= c <= 'f' then Some(10 + (c - 'a') as nat)
    else if 'A' <= c <= 'F' then Some(10 + (c - 'A') as nat)
    else None
  }

  /** Four hexadecimal digits. */
  function FourDigits(s: string): Option<nat>
    requires |s| >= 4
  {
    var a, b, c, d := HexValue(s[0]), HexValue(s[1]), HexValue(s[2]), HexValue(s[3]);
    if a.Some? && b.Some? && c.Some? && d.Some? then Some(((a.value * 16 + b.value) * 16 + c.value) * 16 + d.value) else None
  }

  /** The character of that number; surrogates are none. */
  function CharOf(n: nat): Option<char> {
    if n < 0xd800 || 0xe000 <= n < 0x1_0000 then Some(n as char) else None
  }

  /** What a character after a backslash stands for, when it is no `u`. */
  function ShortEscape(c: char): Option<char> {
    if c == '"' || c == '\\' || c == '/' then Some(c)
    else if c == 'b' then Some(8 as char)
    else if c == 'f' then Some(12 as char)
    else if c == 'n' then Some(10 as char)
    else if c == 'r' then Some(13 as char)
    else if c == 't' then Some(9 as char)
    else None
  }

  /** One character of a string, and what follows it. */
  function ReadChar(s: string): (r: Option<(char, string)>)
    ensures r.Some? ==> |r.value.1| < |s|
  {
    if s == "" || s[0] < ' ' || s[0] == '"' then None
    else if s[0] != '\\' then Some((s[0], s[1..]))
    else if |s| >= 6 && s[1] == 'u' then
      var n := FourDigits(s[2..]);
      if n.Some? && CharOf(n.value).Some? then Some((CharOf(n.value).value, s[6..])) else None
    else if |s| >= 2 && ShortEscape(s[1]).Some? then Some((ShortEscape(s[1]).value, s[2..]))
    else None
  }

  /** A string after its opening quote, and what follows the closing one. */
  function ReadString(s: string): (r: Option<(string, string)>)
    ensures r.Some? ==> |r.value.1| < |s|
    decreases |s|
  {
    if s == "" then None
    else if s[0] == '"' then Some(("", s[1..]))
    else
      var first := ReadChar(s);
      if first.None? then None
      else
        var rest := ReadString(first.value.1);
        if rest.None? then None else Some(([first.value.0] + rest.value.0, rest.value.1))
  }

  // ----- values -----

  predicate StartsWith(s: string, word: string) {
    |word| <= |s| && s[..|word|] == word
  }

  function ReadWord(s: string, word: string, v: Json): Option<(Json, string)> {
    if StartsWith(s, word) then Some((v, s[|word|..])) else None
  }

  /** A value, and what follows it. */
  function ReadValue(s: string): (r: Option<(Json, string)>)
    ensures r.Some? ==> |r.value.1| < |s|
    decreases |s|, 2
  {
    if s == "" then None
    else if s[0] == 'n' then ReadWord(s, "null", JNull)
    else if s[0] == 't' then ReadWord(s, "true", JBool(true))
    else if s[0] == 'f' then ReadWord(s, "false", JBool(false))
    else if s[0] == '"' then
      var text := ReadString(s[1..]);
      if text.None? then None else Some((JStr(text.value.0), text.value.1))
    else if s[0] == '[' then
      if StartsWith(s, "[]") then Some((JArr([]), s[2..]))
      else
        var items := ReadItems(s[1..]);
        if items.None? then None else Some((JArr(items.value.0), items.value.1))
    else if s[0] == '{' then
      if StartsWith(s, "{}") then Some((JObj([]), s[2..]))
      else
        var members := ReadMembers(s[1..]);
        if members.None? then None else Some((JObj(members.value.0), members.value.1))
    else if s[0] == '-' || '0' <= s[0] <= '9' then
      Some((JNum(s[..Numerals(s)]), s[Numerals(s)..]))
    else None
  }

  /** How many characters of a number a text starts with. */
  function Numerals(s: string): (n: nat)
    ensures n <= |s|
    ensures s != "" && (s[0] == '-' || '0' <= s[0] <= '9') ==> n > 0
  {
    if s != "" && s[0] in "0123456789-+.e" then 1 + Numerals(s[1..])
    else
      assert s != "" ==> !('0' <= s[0] <= '9') && s[0] != '-';
      0
  }

  /** Items up to the closing bracket. */
  function ReadItems(s: string): (r: Option<(seq<Json>, string)>)
    ensures r.Some? ==> |r.value.1| < |s|
    decreases |s|, 3
  {
    var first := ReadValue(s);
    if first.None? || first.value.1 == "" then None
    else
      var v, rest := first.value.0, first.value.1;
      if rest[0] == ']' then Some(([v], rest[1..]))
      else if rest[0] != ',' then None
      else
        var more := ReadItems(rest[1..]);
        if more.None? then None else Some(([v] + more.value.0, more.value.1))
  }

  function ReadMember(s: string): (r: Option<(Member, string)>)
    ensures r.Some? ==> |r.value.1| < |s|
    decreases |s|, 3
  {
    if s == "" || s[0] != '"' then None
    else
      var key := ReadString(s[1..]);
      if key.None? || key.value.1 == "" || key.value.1[0] != ':' then None
      else
        var v := ReadValue(key.value.1[1..]);
        if v.None? then None else Some((Member(key.value.0, v.value.0), v.value.1))
  }

  /** Members up to the closing brace. */
  function ReadMembers(s: string): (r: Option<(seq<Member>, string)>)
    ensures r.Some? ==> |r.value.1| < |s|
    decreases |s|, 4
  {
    var first := ReadMember(s);
    if first.None? || first.value.1 == "" then None
    else
      var m, rest := first.value.0, first.value.1;
      if rest[0] == '}' then Some(([m], rest[1..]))
      else if rest[0] != ',' then None
      else
        var more := ReadMembers(rest[1..]);
        if more.None? then None else Some(([m] + more.value.0, more.value.1))
  }

  // ----- printed strings read back -----

  lemma HexReads(d: nat)
    requires d < 16
    ensures HexValue(Hex(d)) == Some(d)
  {
  }

  lemma CharReads(c: char, x: string)
    ensures ReadChar(Escape(c) + x) == Some((c, x)) && Escape(c)[0] != '"'
  {
    var e := Escape(c);
    EscapeShape(c);
    assert (e + x)[|e|..] == x && forall i :: 0 <= i < |e| ==> (e + x)[i] == e[i];
    if |e| == 6 {
      var hi, lo := c as int / 16, c as int % 16;
      HexReads(hi);
      HexReads(lo);
      HexReads(0);
      assert Hex(0) == '0';
      assert e[2] == '0' && e[3] == '0' && e[4] == Hex(hi) && e[5] == Hex(lo);
      hide HexValue, Hex;
      assert FourDigits((e + x)[2..]) == Some(c as int);
    }
  }

  lemma {:induction false} StringReads(s: string, x: string)
    ensures ReadString(EscapeAll(s) + ("\"" + x)) == Some((s, x))
  {
    if s == "" {
      NothingEscaped(x);
      assert ("\"" + x)[1..] == x;
    } else {
      var rest := EscapeAll(s[1..]) + ("\"" + x);
      EscapeAllCons(s, "\"" + x);
      CharReads(s[0], rest);
      HeadOf(Escape(s[0]), rest);
      StringReads(s[1..], x);
      hide Escape, EscapeAll, ReadChar;
      assert s == [s[0]] + s[1..];
    }
  }

  lemma QuoteReads(s: string, x: string)
    ensures Quote(s) + x != "" && (Quote(s) + x)[0] == '"' && ReadString((Quote(s) + x)[1..]) == Some((s, x))
  {
    hide EscapeAll, Quote, ReadString;
    QuoteOpen(s, x);
    StringReads(s, x);
    assert ("\"" + (EscapeAll(s) + ("\"" + x)))[1..] == EscapeAll(s) + ("\"" + x);
  }

  // ----- printed values read back -----

  lemma WordReads(word: string, x: string, v: Json)
    ensures ReadWord(word + x, word, v) == Some((v, x))
  {
    assert (word + x)[..|word|] == word && (word + x)[|word|..] == x;
  }

  lemma NumeralIs(c: char)
    ensures NumberChar(c) <==> c in "0123456789-+.e"
  {
  }

  lemma {:induction false} NumberReads(text: string, x: string)
    requires Ends(x) && forall i :: 0 <= i < |text| ==> NumberChar(text[i])
    ensures Numerals(text + x) == |text|
  {
    if text == "" {
      assert text + x == x;
      assert x != "" ==> x[0] !in "0123456789-+.e";
    } else {
      NumeralIs(text[0]);
      hide NumberChar;
      assert (text + x)[0] == text[0] && (text + x)[1..] == text[1..] + x;
      NumberReads(text[1..], x);
    }
  }

  lemma StringOpens(s: string, t: string, x: string)
    requires s != "" && s[0] == '"' && ReadString(s[1..]) == Some((t, x))
    ensures ReadValue(s) == Some((JStr(t), x))
  {
    hide ReadString;
  }

  lemma NumberOpens(text: string, x: string)
    requires NumberText(text) && Ends(x)
    ensures ReadValue(text + x) == Some((JNum(text), x))
  {
    NumberReads(text, x);
    HeadOf(text, x);
    assert (text + x)[..|text|] == text && (text + x)[|text|..] == x;
    hide Numerals, NumberChar;
    ReadsNumber(text + x);
  }

  lemma ReadsNumber(s: string)
    requires s != "" && (s[0] == '-' || '0' <= s[0] <= '9')
    ensures ReadValue(s) == Some((JNum(s[..Numerals(s)]), s[Numerals(s)..]))
  {
    hide Numerals;
  }

  lemma WordOpens(x: string)
    ensures ReadValue("null" + x) == Some((JNull, x))
    ensures ReadValue("true" + x) == Some((JBool(true), x))
    ensures ReadValue("false" + x) == Some((JBool(false), x))
  {
    WordReads("null", x, JNull);
    WordReads("true", x, JBool(true));
    WordReads("false", x, JBool(false));
    HeadOf("null", x);
    HeadOf("true", x);
    HeadOf("false", x);
    hide ReadWord;
  }

  lemma SecondOf(s: string, word: string)
    requires |word| == 2 && |s| >= 2
    ensures StartsWith(s, word) ==> s[1] == word[1]
  {
  }

  /** The text opens an array or an object that is not empty. */
  lemma ArrayOpens(inner: string, items: seq<Json>, x: string)
    requires inner != "" && inner[0] != ']' && ReadItems(inner) == Some((items, x))
    ensures ReadValue("[" + inner) == Some((JArr(items), x))
  {
    var s := "[" + inner;
    assert s[0] == '[' && s[1..] == inner && s[1] == inner[0];
    SecondOf(s, "[]");
    hide ReadItems, StartsWith;
  }

  lemma ObjectOpens(inner: string, ms: seq<Member>, x: string)
    requires inner != "" && inner[0] != '}' && ReadMembers(inner) == Some((ms, x))
    ensures ReadValue("{" + inner) == Some((JObj(ms), x))
  {
    var s := "{" + inner;
    assert s[0] == '{' && s[1..] == inner && s[1] == inner[0];
    SecondOf(s, "{}");
    hide ReadMembers, StartsWith;
  }

  lemma EmptyOpens(x: string)
    ensures ReadValue("[" + ("]" + x)) == Some((JArr([]), x))
    ensures ReadValue("{" + ("}" + x)) == Some((JObj([]), x))
  {
    var a, o := "[" + ("]" + x), "{" + ("}" + x);
    assert a[..2] == "[]" && a[2..] == x && o[..2] == "{}" && o[2..] == x;
  }

  lemma OneItem(s: string, v: Json, x: string)
    requires ReadValue(s) == Some((v, "]" + x))
    ensures ReadItems(s) == Some(([v], x))
  {
    assert ("]" + x)[1..] == x;
    hide ReadValue;
  }

  lemma MoreItems(s: string, v: Json, t: string, vs: seq<Json>, x: string)
    requires ReadValue(s) == Some((v, "," + t)) && ReadItems(t) == Some((vs, x))
    ensures ReadItems(s) == Some(([v] + vs, x))
  {
    var rest := "," + t;
    assert rest[1..] == t && rest[0] == ',';
    ItemsFrom(s, v, rest);
    hide ReadValue, ReadItems;
  }

  lemma ItemsFrom(s: string, v: Json, rest: string)
    requires ReadValue(s) == Some((v, rest)) && rest != "" && rest[0] == ','
    ensures ReadItems(s) == var more := ReadItems(rest[1..]); if more.None? then None else Some(([v] + more.value.0, more.value.1))
  {
    hide ReadValue;
  }

  lemma MemberReads(key: string, v: Json, t: string, x: string)
    requires ReadValue(t) == Some((v, x))
    ensures ReadMember(Quote(key) + (":" + t)) == Some((Member(key, v), x))
  {
    QuoteReads(key, ":" + t);
    hide Quote, ReadString, ReadValue;
    assert (":" + t)[1..] == t;
  }

  lemma OneMember(s: string, m: Member, x: string)
    requires ReadMember(s) == Some((m, "}" + x))
    ensures ReadMembers(s) == Some(([m], x))
  {
    assert ("}" + x)[1..] == x;
    hide ReadMember;
  }

  lemma MembersFrom(s: string, m: Member, rest: string)
    requires ReadMember(s) == Some((m, rest)) && rest != "" && rest[0] == ','
    ensures ReadMembers(s) == var more := ReadMembers(rest[1..]); if more.None? then None else Some(([m] + more.value.0, more.value.1))
  {
    hide ReadMember;
  }

  lemma MoreMembers(s: string, m: Member, t: string, ms: seq<Member>, x: string)
    requires ReadMember(s) == Some((m, "," + t)) && ReadMembers(t) == Some((ms, x))
    ensures ReadMembers(s) == Some(([m] + ms, x))
  {
    var rest := "," + t;
    assert rest[1..] == t && rest[0] == ',';
    MembersFrom(s, m, rest);
    hide ReadMember, ReadMembers;
  }

  lemma {:induction false} ItemsReadBack(items: seq<Json>, x: string)
    requires items != [] && forall i :: 0 <= i < |items| ==> Parsed(items[i])
    ensures ReadItems(PrintItems(items) + ("]" + x)) == Some((items, x))
    decreases items, 0
  {
    hide *;
    ItemsOpen(items, x);
    RestsEnd(items, [], x);
    ReadsBack(items[0], RestItems(items, x));
    var s := Print(items[0]) + RestItems(items, x);
    assert items == [items[0]] + items[1..];
    if |items| == 1 {
      assert items == [items[0]];
      OneItem(s, items[0], x);
    } else {
      ItemsReadBack(items[1..], x);
      MoreItems(s, items[0], PrintItems(items[1..]) + ("]" + x), items[1..], x);
    }
  }

  lemma {:induction false} MembersReadBack(ms: seq<Member>, x: string)
    requires ms != [] && forall i :: 0 <= i < |ms| ==> Parsed(ms[i].value)
    ensures ReadMembers(PrintMembers(ms) + ("}" + x)) == Some((ms, x))
    decreases ms, 0
  {
    hide *;
    MembersOpen(ms, x);
    RestsEnd([], ms, x);
    ReadsBack(ms[0].value, RestMembers(ms, x));
    MemberReads(ms[0].key, ms[0].value, Print(ms[0].value) + RestMembers(ms, x), RestMembers(ms, x));
    var s := Quote(ms[0].key) + (":" + (Print(ms[0].value) + RestMembers(ms, x)));
    assert ms == [ms[0]] + ms[1..] && ms[0] == Member(ms[0].key, ms[0].value);
    if |ms| == 1 {
      assert ms == [ms[0]];
      OneMember(s, ms[0], x);
    } else {
      MembersReadBack(ms[1..], x);
      MoreMembers(s, ms[0], PrintMembers(ms[1..]) + ("}" + x), ms[1..], x);
    }
  }

  lemma PrintedArray(items: seq<Json>, x: string)
    ensures Print(JArr(items)) + x == "[" + (PrintItems(items) + ("]" + x))
  {
    BracketsOpen("[", PrintItems(items), "]", x);
    hide PrintItems;
  }

  lemma PrintedObject(ms: seq<Member>, x: string)
    ensures Print(JObj(ms)) + x == "{" + (PrintMembers(ms) + ("}" + x))
  {
    BracketsOpen("{", PrintMembers(ms), "}", x);
    hide PrintMembers;
  }

  lemma PrintedPlain(v: Json)
    ensures v.JNull? ==> Print(v) == "null"
    ensures v.JBool? ==> Print(v) == if v.b then "true" else "false"
    ensures v.JNum? ==> Print(v) == v.text
    ensures v.JStr? ==> Print(v) == Quote(v.s)
  {
    hide Quote, PrintItems, PrintMembers;
  }

  lemma InsideParsed(v: Json)
    requires Parsed(v)
    ensures v.JNum? ==> NumberText(v.text)
    ensures v.JArr? ==> forall i :: 0 <= i < |v.items| ==> Parsed(v.items[i])
    ensures v.JObj? ==> forall i :: 0 <= i < |v.members| ==> Parsed(v.members[i].value)
  {
  }

  /** A printed value reads back as the value, whatever delimiter follows. */
  lemma {:induction false} ReadsBack(v: Json, x: string)
    requires Parsed(v) && Ends(x)
    ensures ReadValue(Print(v) + x) == Some((v, x))
    decreases v, 1
  {
    hide *;
    InsideParsed(v);
    PrintedPlain(v);
    match v
    case JNull => WordOpens(x);
    case JBool(_) => WordOpens(x);
    case JNum(text) => NumberOpens(text, x);
    case JStr(s) =>
      QuoteReads(s, x);
      StringOpens(Quote(s) + x, s, x);
    case JArr(items) =>
      PrintedArray(items, x);
      ItemsHeads(items, x);
      EmptyOpens(x);
      if items != [] {
        ItemsReadBack(items, x);
        ArrayOpens(PrintItems(items) + ("]" + x), items, x);
      }
    case JObj(ms) =>
      PrintedObject(ms, x);
      MembersHeads(ms, x);
      EmptyOpens(x);
      if ms != [] {
        MembersReadBack(ms, x);
        ObjectOpens(PrintMembers(ms) + ("}" + x), ms, x);
      }
  }

  /** What is printed is JSON, and reads back as what it was printed from. */
  lemma PrintReadsBack(v: Json)
    requires Parsed(v)
    ensures ReadValue(Print(v)) == Some((v, ""))
  {
    assert Print(v) + "" == Print(v);
    assert Ends("");
    hide *;
    ReadsBack(v, "");
  }

  /** A canonical text reads back as a canonical value of the same meaning. */
  lemma CanonicalTextReads(v: Json, s: string)
    requires IsCanonicalText(v, s)
    ensures ReadValue(s).Some? && ReadValue(s).value.1 == ""
    ensures Canonical(ReadValue(s).value.0) && Meaning(ReadValue(s).value.0) == Meaning(v)
  {
    hide Parsed, Canonical, Meaning, Print, ReadValue;
    var c :| Parsed(c) && Canonical(c) && Meaning(c) == Meaning(v) && s == Print(c);
    PrintReadsBack(c);
  }
}
