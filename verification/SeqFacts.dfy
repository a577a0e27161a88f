/** Laws of sequences, stated once so that proofs about edits can use them by name. */
module SeqFacts {
  lemma SubSlice<T>(all: seq<T>, at: nat, part: seq<T>, i: nat, j: nat)
    requires i <= j <= |part| && at + |part| <= |all|
    requires all[at..at + |part|] == part
    ensures all[at + i..at + j] == part[i..j]
  {
    forall k | 0 <= k < j - i
      ensures all[at + i..at + j][k] == part[i..j][k]
    {
      assert all[at..at + |part|][i + k] == part[i + k];
    }
  }

  lemma SliceOfSlice<T>(all: seq<T>, at: nat, part: seq<T>, i: nat, j: nat)
    requires at <= i <= j <= at + |part| <= |all|
    requires all[at..at + |part|] == part
    ensures all[i..j] == part[i - at..j - at]
  {
    SubSlice(all, at, part, i - at, j - at);
  }

  lemma MiddleSlice<T>(a: seq<T>, b: seq<T>, c: seq<T>)
    ensures (a + b + c)[|a|..|a + b|] == b
  {
  }

  lemma SliceHead<T>(s: seq<T>, i: nat, j: nat)
    requires i < j <= |s|
    ensures s[i..j] == [s[i]] + s[i + 1..j]
  {
  }

  lemma AppendNil<T>(s: seq<T>)
    ensures s + [] == s && [] + s == s
  {
  }

  lemma Assoc<T>(a: seq<T>, b: seq<T>, c: seq<T>)
    ensures (a + b) + c == a + (b + c)
  {
  }

  lemma Regroup<T>(a: seq<T>, b: seq<T>, c: seq<T>, d: seq<T>)
    ensures a + b + c + d == a + (b + (c + d))
    ensures a + (b + c) + d == a + (b + (c + d))
    ensures a + b + (c + d) == a + (b + c + d)
  {
  }
}
