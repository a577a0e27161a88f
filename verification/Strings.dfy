/** String order and sorted key lists. A `char` stands for one UTF-16 code unit. */
module Strings {
  /** The default order of the library's `sort`: lexicographic by code unit. */
  predicate Less(a: string, b: string) {
    if b == "" then false
    else if a == "" then true
    else a[0] < b[0] || (a[0] == b[0] && Less(a[1..], b[1..]))
  }

  /** The two agree on the first `k` characters, and then `a` ends or goes on with the smaller one. */
  predicate LowerAt(a: string, b: string, k: nat) {
    k <= |a| && k < |b| && a[..k] == b[..k] && (k == |a| || a[k] < b[k])
  }

  lemma {:induction false} LessIff(a: string, b: string)
    ensures Less(a, b) <==> exists k: nat :: LowerAt(a, b, k)
  {
    if a == "" || b == "" {
      assert b != "" ==> LowerAt(a, b, 0);
    } else {
      LessIff(a[1..], b[1..]);
      if a[0] < b[0] {
        assert LowerAt(a, b, 0);
      } else if a[0] == b[0] {
        if k: nat :| LowerAt(a[1..], b[1..], k) {
          assert a[..k + 1] == [a[0]] + a[1..][..k] && b[..k + 1] == [b[0]] + b[1..][..k];
          assert LowerAt(a, b, k + 1);
        }
        if k: nat :| LowerAt(a, b, k) {
          assert k > 0 && a[1..][..k - 1] == a[..k][1..] && b[1..][..k - 1] == b[..k][1..];
          assert LowerAt(a[1..], b[1..], k - 1);
        }
      }
      forall k: nat | LowerAt(a, b, k)
        ensures a[0] <= b[0]
      {
        assert k > 0 ==> a[..k][0] == b[..k][0];
      }
    }
  }

  lemma {:induction false} LessTotal(a: string, b: string)
    ensures a == b || Less(a, b) || Less(b, a)
    ensures !(Less(a, b) && Less(b, a))
    ensures !Less(a, a)
  {
    if a != "" && b != "" {
      LessTotal(a[1..], b[1..]);
      assert a == [a[0]] + a[1..] && b == [b[0]] + b[1..];
    }
    if a != "" {
      LessTotal(a[1..], a[1..]);
    }
  }

  lemma {:induction false} LessTransitive(a: string, b: string, c: string)
    requires Less(a, b) && Less(b, c)
    ensures Less(a, c)
  {
    if a != "" && a[0] == b[0] == c[0] {
      LessTransitive(a[1..], b[1..], c[1..]);
    }
  }

  predicate StrictlySorted(xs: seq<string>) {
    forall i, j :: 0 <= i < j < |xs| ==> Less(xs[i], xs[j])
  }

  function Elements(xs: seq<string>): set<string> {
    set x | x in xs
  }

  predicate Distinct(xs: seq<string>) {
    forall i, j :: 0 <= i < j < |xs| ==> xs[i] != xs[j]
  }

  lemma NoElements(xs: seq<string>)
    ensures Elements(xs) == {} <==> xs == []
  {
    assert xs != [] ==> xs[0] in Elements(xs);
  }

  lemma ElementsCons(x: string, xs: seq<string>)
    ensures Elements([x] + xs) == {x} + Elements(xs)
  {
  }

  /** A strictly sorted list is determined by its elements. */
  lemma {:induction false} SortedUnique(xs: seq<string>, ys: seq<string>)
    requires StrictlySorted(xs) && StrictlySorted(ys) && Elements(xs) == Elements(ys)
    ensures xs == ys
  {
    if xs == [] || ys == [] {
      NoElements(xs);
      NoElements(ys);
    } else {
      assert xs[0] in Elements(ys) && ys[0] in Elements(xs);
      var i :| 0 <= i < |ys| && ys[i] == xs[0];
      var j :| 0 <= j < |xs| && xs[j] == ys[0];
      LessTotal(xs[0], ys[0]);
      assert xs[0] == ys[0];
      LessTotal(xs[0], xs[0]);
      assert Elements(xs[1..]) == Elements(xs) - {xs[0]};
      assert Elements(ys[1..]) == Elements(ys) - {ys[0]};
      SortedUnique(xs[1..], ys[1..]);
    }
  }

  function InsertSorted(xs: seq<string>, x: string): (out: seq<string>)
    ensures Elements(out) == Elements(xs) + {x}
  {
    if xs == [] then [x]
    else if Less(x, xs[0]) then
      ElementsCons(x, xs);
      [x] + xs
    else
      assert xs == [xs[0]] + xs[1..];
      ElementsCons(xs[0], xs[1..]);
      ElementsCons(xs[0], InsertSorted(xs[1..], x));
      [xs[0]] + InsertSorted(xs[1..], x)
  }

  /** The library's sort. */
  function Sort(xs: seq<string>): (out: seq<string>)
    ensures Elements(out) == Elements(xs)
  {
    if xs == [] then [] else
      assert xs == [xs[0]] + xs[1..];
      InsertSorted(Sort(xs[1..]), xs[0])
  }

  lemma {:induction false} InsertKeepsSorted(xs: seq<string>, x: string)
    requires StrictlySorted(xs) && x !in xs
    ensures StrictlySorted(InsertSorted(xs, x))
  {
    if xs != [] {
      LessTotal(x, xs[0]);
      if Less(x, xs[0]) {
        forall j | 0 <= j < |xs|
          ensures Less(x, xs[j])
        {
          if j > 0 {
            LessTransitive(x, xs[0], xs[j]);
          }
        }
      } else {
        InsertKeepsSorted(xs[1..], x);
        var rest := InsertSorted(xs[1..], x);
        forall j | 0 <= j < |rest|
          ensures Less(xs[0], rest[j])
        {
          assert rest[j] in Elements(rest);
        }
      }
    }
  }

  lemma {:induction false} SortSorts(xs: seq<string>)
    requires Distinct(xs)
    ensures StrictlySorted(Sort(xs)) && Elements(Sort(xs)) == Elements(xs)
  {
    if xs != [] {
      SortSorts(xs[1..]);
      assert xs[0] !in xs[1..];
      assert xs[0] !in Elements(Sort(xs[1..]));
      InsertKeepsSorted(Sort(xs[1..]), xs[0]);
    }
  }

  // ----- filtering -----

  /** The library's `filter`. */
  function Keep(xs: seq<string>, p: string -> bool): seq<string> {
    if xs == [] then []
    else Keep(xs[..|xs| - 1], p) + (if p(xs[|xs| - 1]) then [xs[|xs| - 1]] else [])
  }

  lemma KeepStep(xs: seq<string>, i: nat, p: string -> bool)
    requires i < |xs|
    ensures Keep(xs[..i + 1], p) == if p(xs[i]) then Keep(xs[..i], p) + [xs[i]] else Keep(xs[..i], p)
    ensures Elements(Keep(xs[..i + 1], p)) == Elements(Keep(xs[..i], p)) + (if p(xs[i]) then {xs[i]} else {})
  {
    assert xs[..i + 1][..i] == xs[..i];
  }

  lemma ElementsSnoc(xs: seq<string>, x: string)
    ensures Elements(xs + [x]) == Elements(xs) + {x}
  {
  }

  lemma {:induction false} KeepElements(xs: seq<string>, p: string -> bool)
    ensures Elements(Keep(xs, p)) == set x | x in Elements(xs) && p(x)
  {
    if xs != [] {
      var front, last := xs[..|xs| - 1], xs[|xs| - 1];
      KeepElements(front, p);
      assert xs == front + [last];
      ElementsSnoc(front, last);
      ElementsSnoc(Keep(front, p), last);
      KeepStep(xs, |xs| - 1, p);
      WholePrefix(xs);
      hide Elements, Keep;
    }
  }

  lemma {:induction false} KeepFacts(xs: seq<string>, p: string -> bool)
    ensures Elements(Keep(xs, p)) == set x | x in Elements(xs) && p(x)
    ensures Distinct(xs) ==> Distinct(Keep(xs, p))
    ensures StrictlySorted(xs) ==> StrictlySorted(Keep(xs, p))
  {
    KeepElements(xs, p);
    if xs != [] {
      var front, last := xs[..|xs| - 1], xs[|xs| - 1];
      KeepFacts(front, p);
      KeepElements(front, p);
      KeptAmong(xs, Keep(front, p));
      PrefixOrdered(xs);
      SnocOrdered(Keep(front, p), last);
      hide Less, Elements, Distinct, StrictlySorted;
    }
  }

  lemma PrefixOrdered(xs: seq<string>)
    requires xs != []
    ensures Distinct(xs) ==> Distinct(xs[..|xs| - 1])
    ensures StrictlySorted(xs) ==> StrictlySorted(xs[..|xs| - 1])
  {
    hide Less;
  }

  lemma SnocOrdered(xs: seq<string>, last: string)
    ensures Distinct(xs) && (forall x :: x in xs ==> x != last) ==> Distinct(xs + [last])
    ensures StrictlySorted(xs) && (forall x :: x in xs ==> Less(x, last)) ==> StrictlySorted(xs + [last])
  {
    hide Less;
    assert forall i :: 0 <= i < |xs| ==> xs[i] in xs && (xs + [last])[i] == xs[i];
  }

  /** Elements of the front of a list stand before its last element. */
  lemma KeptAmong(xs: seq<string>, kept: seq<string>)
    requires xs != [] && Elements(kept) <= Elements(xs[..|xs| - 1])
    ensures Distinct(xs) ==> forall x :: x in kept ==> x != xs[|xs| - 1]
    ensures StrictlySorted(xs) ==> forall x :: x in kept ==> Less(x, xs[|xs| - 1])
  {
    hide Less;
    assert forall x :: x in kept ==> x in Elements(kept) && x in xs[..|xs| - 1];
  }

  lemma WholePrefix(xs: seq<string>)
    ensures xs[..|xs|] == xs
  {
  }

  /** Some enumeration of a set without repetition. */
  ghost function AnyOrder(s: set<string>): (xs: seq<string>)
    ensures Distinct(xs) && Elements(xs) == s
  {
    if s == {} then []
    else
      var x :| x in s;
      ElementsCons(x, AnyOrder(s - {x}));
      [x] + AnyOrder(s - {x})
  }

  /** The sorted list of a set of keys. */
  ghost function SortedKeys(s: set<string>): (xs: seq<string>)
    ensures StrictlySorted(xs) && Elements(xs) == s
  {
    SortSorts(AnyOrder(s));
    Sort(AnyOrder(s))
  }

  /** Sorting forgets the order in which the keys were enumerated. */
  lemma SortIsCanonical(xs: seq<string>)
    requires Distinct(xs)
    ensures Sort(xs) == SortedKeys(Elements(xs))
  {
    SortSorts(xs);
    SortedUnique(Sort(xs), SortedKeys(Elements(xs)));
  }

  lemma SortedIsDistinct(xs: seq<string>)
    requires StrictlySorted(xs)
    ensures Distinct(xs)
  {
    forall i, j | 0 <= i < j < |xs|
      ensures xs[i] != xs[j]
    {
      LessTotal(xs[i], xs[j]);
      assert Less(xs[i], xs[j]);
    }
  }

  /** Some enumeration of a set of keys; the language fixes none. */
  method Enumerate(s: set<string>) returns (xs: seq<string>)
    ensures Distinct(xs) && Elements(xs) == s
  {
    xs := [];
    var left := s;
    while left != {}
      invariant Distinct(xs) && left <= s && Elements(xs) == s - left
      decreases |left|
    {
      var x :| x in left;
      assert Elements(xs + [x]) == Elements(xs) + {x};
      assert x !in xs by {
        assert x in xs ==> x in Elements(xs);
      }
      xs := xs + [x];
      left := left - {x};
    }
  }

  // ----- taking strings apart -----

  /** Position of the first `c`, or -1. */
  function IndexOf(s: string, c: char): (i: int)
    ensures -1 <= i < |s|
    ensures i >= 0 ==> s[i] == c && c !in s[..i]
    ensures i < 0 <==> c !in s
  {
    if s == "" then -1
    else if s[0] == c then 0
    else
      var rest := IndexOf(s[1..], c);
      assert s == [s[0]] + s[1..];
      if rest < 0 then -1
      else
        assert s[..rest + 1] == [s[0]] + s[1..][..rest];
        rest + 1
  }

  /** Position of the last `c`, or -1. */
  function LastIndexOf(s: string, c: char): (i: int)
    ensures -1 <= i < |s|
    ensures i >= 0 ==> s[i] == c && c !in s[i + 1..]
    ensures i < 0 <==> c !in s
  {
    if s == "" then -1
    else if s[|s| - 1] == c then |s| - 1
    else
      assert s == s[..|s| - 1] + [s[|s| - 1]];
      var before := LastIndexOf(s[..|s| - 1], c);
      assert before >= 0 ==> s[before + 1..] == s[..|s| - 1][before + 1..] + [s[|s| - 1]];
      before
  }

  /** The library's `split` by one character. */
  function Split(s: string, c: char): (parts: seq<string>)
    ensures |parts| >= 1
    decreases |s|
  {
    var i := IndexOf(s, c);
    if i < 0 then [s] else [s[..i]] + Split(s[i + 1..], c)
  }

  predicate Digits(s: string) {
    s != "" && forall i :: 0 <= i < |s| ==> '0' <= s[i] <= '9'
  }

  function Value(s: string): nat
    requires forall i :: 0 <= i < |s| ==> '0' <= s[i] <= '9'
  {
    if s == "" then 0 else Value(s[..|s| - 1]) * 10 + (s[|s| - 1] - '0') as int
  }
}
