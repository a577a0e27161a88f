/**
 * Merge-on-write persistence: a fast path that skips the union when the stored state has
 * nothing to add, over document states that only grow.
 */
module Persistence {
  import opened Prelude
  import opened StateVectors
  import EditTokens

  /** One struct: the `clock`-th of its client. Its content is fixed by its id. */
  datatype Id = Id(client: int, clock: nat)

  /** A full document state: for each client a prefix of its structs, and the deleted ids. */
  datatype State = State(clocks: Vector, deleted: set<Id>)

  /** A difference between states: structs, and deletions, which are never subtracted. */
  datatype Update = Update(structs: set<Id>, deletes: set<Id>)

  predicate Integrated(s: State, id: Id) {
    id.clock < Clock(s.clocks, id.client)
  }

  /** Encoded vectors list no client without structs. */
  predicate Encoded(s: State) {
    forall client :: client in s.clocks ==> s.clocks[client] > 0
  }

  function Larger(a: nat, b: nat): nat {
    if a < b then b else a
  }

  /** Applying both states to one document. */
  function Join(a: State, b: State): State {
    State(map client | client in a.clocks.Keys + b.clocks.Keys :: Larger(Clock(a.clocks, client), Clock(b.clocks, client)),
          a.deleted + b.deleted)
  }

  /** `diffUpdate(s, known)`: the structs beyond `known`, and the whole delete set. */
  function Diff(s: State, known: Vector): Update {
    Update(set client, clock | client in s.clocks && Clock(known, client) <= clock < s.clocks[client] :: Id(client, clock), s.deleted)
  }

  predicate IsEmptyUpdate(u: Update) {
    u.structs == {} && u.deletes == {}
  }

  /** Nothing in `a` is missing from `b`. */
  ghost predicate Contained(a: State, b: State) {
    (forall id :: Integrated(a, id) ==> Integrated(b, id)) && a.deleted <= b.deleted
  }

  /** The surplus is empty exactly when the stored state is contained in the incoming one and deletes nothing. */
  lemma SurplusIsEmptyIff(existing: State, incoming: State)
    ensures IsEmptyUpdate(Diff(existing, incoming.clocks)) <==> Contained(existing, incoming) && existing.deleted == {}
  {
    var d := Diff(existing, incoming.clocks);
    if IsEmptyUpdate(d) {
      forall id | Integrated(existing, id)
        ensures Integrated(incoming, id)
      {
        assert id !in d.structs;
      }
    } else if Contained(existing, incoming) && existing.deleted == {} {
      var id :| id in d.structs;
      assert Integrated(existing, id);
    }
  }

  lemma AbsorbedByJoin(a: State, b: State)
    requires Contained(a, b) && Encoded(a)
    ensures Join(a, b) == b
  {
    forall client | client in a.clocks
      ensures Clock(a.clocks, client) <= Clock(b.clocks, client)
    {
      if Clock(b.clocks, client) < Clock(a.clocks, client) {
        assert Integrated(a, Id(client, Clock(b.clocks, client)));
      }
    }
  }

  /** The fast path and the union write the same bytes: the join of both states. */
  method ComputeFinalState(existing: Option<State>, incoming: State) returns (finalState: State, usedUnion: bool)
    requires existing.Some? ==> Encoded(existing.value)
    ensures finalState == if existing.Some? then Join(existing.value, incoming) else incoming
    ensures usedUnion <==> existing.Some? && !(Contained(existing.value, incoming) && existing.value.deleted == {})
  {
    if existing.None? {
      return incoming, false;
    }
    var surplus := Diff(existing.value, incoming.clocks);
    SurplusIsEmptyIff(existing.value, incoming);
    if IsEmptyUpdate(surplus) {
      AbsorbedByJoin(existing.value, incoming);
      return incoming, false;
    }
    return Join(existing.value, incoming), true;
  }

  // ----- the row -----

  const SYSTEM_STORE_UID: string := "system"

  datatype StoreError = TooLarge

  /** A state handed to the store, with the length of its encoding and the acting user. */
  datatype Incoming = Incoming(state: State, bytes: nat, uid: Option<string>)

  /** The row of one document and who last edited it; every store locks it. */
  class DocumentRow {
    const maxDocBytes: nat
    var row: Option<State>
    var updatedBy: Option<string>

    constructor (maxDocBytes: nat)
      ensures this.maxDocBytes == maxDocBytes && row == None && updatedBy == None
    {
      this.maxDocBytes, row, updatedBy := maxDocBytes, None, None;
    }

    method Store(incoming: Incoming) returns (r: Result<bool, StoreError>)
      requires row.Some? ==> Encoded(row.value)
      requires Encoded(incoming.state)
      modifies this
      ensures r.Err? <==> incoming.bytes > maxDocBytes
      ensures row == Stored(old(row), incoming, maxDocBytes)
      ensures row.Some? ==> Encoded(row.value)
      ensures updatedBy == if r.Err? || incoming.uid == Some("system") then old(updatedBy) else incoming.uid
    {
      if incoming.bytes > maxDocBytes {
        return Err(TooLarge);
      }
      var finalState, usedUnion := ComputeFinalState(row, incoming.state);
      row := Some(finalState);
      if incoming.uid != Some(SYSTEM_STORE_UID) {
        updatedBy := incoming.uid;
      }
      return Ok(usedUnion);
    }
  }

  // ----- every run of stores -----

  predicate Accepted(incoming: Incoming, maxDocBytes: nat) {
    incoming.bytes <= maxDocBytes
  }

  function Stored(row: Option<State>, incoming: Incoming, maxDocBytes: nat): Option<State> {
    if !Accepted(incoming, maxDocBytes) then row
    else if row.Some? then Some(Join(row.value, incoming.state))
    else Some(incoming.state)
  }

  function RunOf(stores: seq<Incoming>, maxDocBytes: nat): Option<State> {
    if stores == [] then None else Stored(RunOf(stores[..|stores| - 1], maxDocBytes), stores[|stores| - 1], maxDocBytes)
  }

  lemma RunGoesOn(stores: seq<Incoming>, incoming: Incoming, maxDocBytes: nat)
    ensures RunOf([], maxDocBytes) == None
    ensures RunOf(stores + [incoming], maxDocBytes) == Stored(RunOf(stores, maxDocBytes), incoming, maxDocBytes)
  {
    hide Stored;
    assert (stores + [incoming])[..|stores + [incoming]| - 1] == stores;
  }

  ghost predicate Holds(row: Option<State>, id: Id) {
    row.Some? && Integrated(row.value, id)
  }

  ghost predicate Deletes(row: Option<State>, id: Id) {
    row.Some? && id in row.value.deleted
  }

  /**
   * No insert and no deletion is ever lost or invented: after any run the row holds exactly
   * what some accepted store held.
   */
  lemma {:induction false} RowIsUnion(stores: seq<Incoming>, maxDocBytes: nat, id: Id)
    ensures Holds(RunOf(stores, maxDocBytes), id) <==> exists s :: s in stores && Accepted(s, maxDocBytes) && Integrated(s.state, id)
    ensures Deletes(RunOf(stores, maxDocBytes), id) <==> exists s :: s in stores && Accepted(s, maxDocBytes) && id in s.state.deleted
    ensures RunOf(stores, maxDocBytes).Some? <==> exists s :: s in stores && Accepted(s, maxDocBytes)
  {
    if stores != [] {
      var front, last := stores[..|stores| - 1], stores[|stores| - 1];
      RowIsUnion(front, maxDocBytes, id);
      assert stores == front + [last];
      assert last in stores && forall s :: s in front ==> s in stores;
    }
  }

  lemma {:induction false} RowIsEncoded(stores: seq<Incoming>, maxDocBytes: nat)
    requires forall s :: s in stores ==> Encoded(s.state)
    ensures RunOf(stores, maxDocBytes).Some? ==> Encoded(RunOf(stores, maxDocBytes).value)
  {
    if stores != [] {
      assert stores[|stores| - 1] in stores && forall s :: s in stores[..|stores| - 1] ==> s in stores;
      RowIsEncoded(stores[..|stores| - 1], maxDocBytes);
    }
  }

  /** A state is determined by what it holds and what it deletes. */
  lemma StateIsExtensional(a: State, b: State)
    requires Encoded(a) && Encoded(b)
    requires forall id :: Integrated(a, id) <==> Integrated(b, id)
    requires forall id :: id in a.deleted <==> id in b.deleted
    ensures a == b
  {
    forall client
      ensures Clock(a.clocks, client) == Clock(b.clocks, client)
    {
      if Clock(a.clocks, client) < Clock(b.clocks, client) {
        assert Integrated(b, Id(client, Clock(a.clocks, client)));
      } else if Clock(b.clocks, client) < Clock(a.clocks, client) {
        assert Integrated(a, Id(client, Clock(b.clocks, client)));
      }
    }
    assert a.clocks == b.clocks by {
      forall client
        ensures client in a.clocks <==> client in b.clocks
        ensures client in a.clocks && client in b.clocks ==> a.clocks[client] == b.clocks[client]
      {
        assert Clock(a.clocks, client) == Clock(b.clocks, client);
      }
    }
  }

  /** So the row depends only on which states were accepted, not on their order or repetition. */
  lemma OrderIsIrrelevant(stores: seq<Incoming>, others: seq<Incoming>, maxDocBytes: nat)
    requires forall s :: s in stores ==> Encoded(s.state)
    requires forall s :: s in stores <==> s in others
    ensures RunOf(stores, maxDocBytes) == RunOf(others, maxDocBytes)
  {
    var a, b := RunOf(stores, maxDocBytes), RunOf(others, maxDocBytes);
    RowIsEncoded(stores, maxDocBytes);
    RowIsEncoded(others, maxDocBytes);
    forall id
      ensures Holds(a, id) <==> Holds(b, id)
      ensures Deletes(a, id) <==> Deletes(b, id)
      ensures a.Some? <==> b.Some?
    {
      RowIsUnion(stores, maxDocBytes, id);
      RowIsUnion(others, maxDocBytes, id);
      hide RunOf, Integrated, Holds, Deletes;
    }
    if a.Some? && b.Some? {
      hide RunOf, Integrated, Encoded;
      assert forall id :: Integrated(a.value, id) <==> Holds(a, id);
      assert forall id :: Integrated(b.value, id) <==> Holds(b, id);
      assert forall id :: id in a.value.deleted <==> Deletes(a, id);
      assert forall id :: id in b.value.deleted <==> Deletes(b, id);
      StateIsExtensional(a.value, b.value);
    } else {
      var any := Id(0, 0);
      assert Holds(a, any) <==> Holds(b, any);
    }
  }

  /**
   * The direction of the difference matters: with it reversed, an empty surplus would write the
   * incoming state over edits it does not have, unless it has them all.
   */
  lemma ReversedCheckIsSafeIff(existing: State, incoming: State)
    requires Encoded(existing) && Encoded(incoming) && IsEmptyUpdate(Diff(incoming, existing.clocks))
    ensures Join(existing, incoming) == incoming <==> existing == incoming
  {
    SurplusIsEmptyIff(incoming, existing);
    if Join(existing, incoming) == incoming {
      JoinContains(existing, incoming);
      StateIsExtensional(existing, incoming);
    } else if existing == incoming {
      AbsorbedByJoin(existing, incoming);
    }
  }

  lemma JoinContains(a: State, b: State)
    ensures Contained(a, Join(a, b)) && Contained(b, Join(a, b))
  {
  }

  // ----- the row of a live document -----

  lemma JoinIsIncomingIff(existing: State, incoming: State)
    requires Encoded(existing) && Encoded(incoming)
    ensures Join(existing, incoming).clocks == incoming.clocks <==> AtMost(existing.clocks, incoming.clocks)
  {
    var joined := Join(existing, incoming).clocks;
    if joined == incoming.clocks {
      forall client | client in existing.clocks
        ensures existing.clocks[client] <= Clock(incoming.clocks, client)
      {
        assert joined[client] == incoming.clocks[client];
      }
    }
    if AtMost(existing.clocks, incoming.clocks) {
      assert joined.Keys == incoming.clocks.Keys;
      forall client | client in joined
        ensures joined[client] == incoming.clocks[client]
      {
        assert client in existing.clocks ==> existing.clocks[client] <= Clock(incoming.clocks, client);
      }
      assert joined == incoming.clocks;
    }
  }

  /**
   * A store of a live document is the step of the token model, accepted or refused, exactly when
   * an accepted one finds nothing in the row beyond the document.
   */
  lemma StoreIsStepIff(l: EditTokens.Live, row: State, incoming: Incoming, maxDocBytes: nat)
    requires Encoded(row) && Encoded(incoming.state) && row.clocks == l.stored && incoming.state.clocks == l.sv
    ensures Stored(Some(row), incoming, maxDocBytes).Some?
    ensures Stored(Some(row), incoming, maxDocBytes).value.clocks == EditTokens.Next(l, EditTokens.Store(Accepted(incoming, maxDocBytes))).stored
        <==> (Accepted(incoming, maxDocBytes) ==> AtMost(l.stored, l.sv))
  {
    JoinIsIncomingIff(row, incoming.state);
    hide Join, AtMost;
  }

  /** So it is at every store of every legal run that starts from a row within its document. */
  lemma StoresOfARun(l: EditTokens.Live, evs: seq<EditTokens.Event>, n: nat, row: State, incoming: Incoming, maxDocBytes: nat)
    requires EditTokens.LegalRun(l, evs) && AtMost(l.stored, l.sv) && n < |evs|
    requires evs[n] == EditTokens.Store(Accepted(incoming, maxDocBytes))
    requires Encoded(row) && row.clocks == EditTokens.After(l, evs, n).stored
    requires Encoded(incoming.state) && incoming.state.clocks == EditTokens.After(l, evs, n).sv
    ensures Stored(Some(row), incoming, maxDocBytes).Some?
    ensures Stored(Some(row), incoming, maxDocBytes).value.clocks == EditTokens.After(l, evs, n + 1).stored
  {
    EditTokens.RowIsBehind(l, evs, n);
    StoreIsStepIff(EditTokens.After(l, evs, n), row, incoming, maxDocBytes);
    hide AtMost, Stored, Accepted, Encoded, EditTokens.LegalRun;
  }
}
