/** State vectors: how many structs of each client a document has integrated. */
module StateVectors {
  /** Encoding a vector is canonical, so byte equality of two tokens is equality of the maps. */
  type Vector = map<int, nat>

  function Clock(sv: Vector, client: int): nat {
    if client in sv then sv[client] else 0
  }

  predicate AtMost(a: Vector, b: Vector) {
    forall client :: client in a ==> a[client] <= Clock(b, client)
  }

  /** `n` further structs of one client; a deletion adds none. */
  function Advanced(sv: Vector, client: int, n: nat): Vector {
    if n == 0 then sv else sv[client := Clock(sv, client) + n]
  }

  /** The clock of one client went up by `n`, and no other clock changed. */
  ghost predicate WentUp(before: Vector, after: Vector, client: int, n: nat) {
    && client in after && after[client] == (if client in before then before[client] else 0) + n
    && forall c :: c != client ==> (c in after <==> c in before) && (c in before ==> after[c] == before[c])
  }

  lemma AdvancedWentUp(sv: Vector, client: int, m: nat, n: nat)
    requires n > 0
    ensures WentUp(sv, Advanced(Advanced(sv, client, m), client, n), client, m + n)
  {
  }

  lemma AtMostTransitive(a: Vector, b: Vector, c: Vector)
    requires AtMost(a, b) && AtMost(b, c)
    ensures AtMost(a, c)
  {
  }

  /** Byte-exact equality of two encoded vectors. */
  method StateVectorsEqual(a: seq<bv8>, b: seq<bv8>) returns (equal: bool)
    ensures equal <==> a == b
  {
    if |a| != |b| {
      return false;
    }
    for i := 0 to |a|
      invariant a[..i] == b[..i]
    {
      if a[i] != b[i] {
        return false;
      }
    }
    return true;
  }
}
