/**
 * Idempotent creation of a deck: any number of requests run the handler's steps in any
 * interleaving, over a database that shows committed rows only and locks an inserted key.
 */
module PptCreate {
  import opened Prelude

  /** The unique key of an idempotency row. */
  datatype Key = Key(space: string, uid: string, key: string)

  datatype Response = Response(docId: string, createdAt: string)

  /** A placeholder has status 0 and nothing else; a complete row holds the response to replay. */
  datatype Row = Row(hash: string, status: nat, response: Option<Response>, docId: Option<string>)

  /** The rows a creation writes for its deck: metadata, membership and state. */
  datatype Deck = Deck(key: Key, hash: string)

  datatype Outcome = Success(status: nat, response: Response) | PayloadConflict | InProgress | Errored

  /** Where a request is in the handler. */
  datatype Phase = Arrived | Missed | Reserved | DeckWritten | Filled | Beaten | Done(outcome: Outcome)

  /** A request, with what its open transaction has written so far. */
  datatype Request = Request(key: Key, hash: string, docId: string, createdAt: string, phase: Phase,
                             row: Option<Row>, deck: Option<Deck>)

  /** Committed rows and decks, and all requests so far. */
  datatype State = State(rows: map<Key, Row>, decks: map<string, Deck>, requests: map<nat, Request>)

  datatype Event =
    | Arrive(id: nat, key: Key, hash: string, docId: string, createdAt: string)
    | ReadPrior(id: nat)
    | Reserve(id: nat)
    | WriteDeck(id: nat)
    | Complete(id: nat)
    | Commit(id: nat)
    | Fail(id: nat)
    | Reread(id: nat)

  const EMPTY: State := State(map[], map[], map[])

  /** Who has inserted the key in a transaction that is still open. */
  predicate Holds(r: Request) {
    r.row.Some?
  }

  function Answer(row: Row, hash: string): Outcome {
    if row.hash != hash then PayloadConflict
    else if row.status > 0 && row.response.Some? then Success(row.status, row.response.value)
    else InProgress
  }

  function Finished(r: Request, o: Outcome): Request {
    r.(phase := Done(o), row := None, deck := None)
  }

  /**
   * An insert of a key that another open transaction has inserted waits for that transaction;
   * giving up the wait is a failure. Failures may strike anywhere before the commit.
   */
  predicate Enabled(s: State, ev: Event) {
    match ev
    case Arrive(id, _, _, docId, _) =>
      && id !in s.requests && docId !in s.decks
      && forall j :: j in s.requests ==> s.requests[j].docId != docId
    case ReadPrior(id) => id in s.requests && s.requests[id].phase == Arrived
    case Reserve(id) =>
      && id in s.requests && s.requests[id].phase == Missed
      && forall j :: j in s.requests && j != id && Holds(s.requests[j]) ==> s.requests[j].key != s.requests[id].key
    case WriteDeck(id) => id in s.requests && s.requests[id].phase == Reserved
    case Complete(id) => id in s.requests && s.requests[id].phase == DeckWritten
    case Commit(id) => id in s.requests && s.requests[id].phase == Filled && s.requests[id].row.Some? && s.requests[id].deck.Some?
    case Fail(id) => id in s.requests && !s.requests[id].phase.Done?
    case Reread(id) => id in s.requests && s.requests[id].phase == Beaten
  }

  /** One request after its own step. */
  function Moved(s: State, r: Request, ev: Event): Request {
    match ev
    case Arrive(_, _, _, _, _) => r
    case ReadPrior(_) => if r.key in s.rows then Finished(r, Answer(s.rows[r.key], r.hash)) else r.(phase := Missed)
    case Reserve(_) => if r.key in s.rows then r.(phase := Beaten) else r.(phase := Reserved, row := Some(Row(r.hash, 0, None, None)))
    case WriteDeck(_) => r.(phase := DeckWritten, deck := Some(Deck(r.key, r.hash)))
    case Complete(_) => r.(phase := Filled, row := Some(Row(r.hash, 201, Some(Response(r.docId, r.createdAt)), Some(r.docId))))
    case Commit(_) => Finished(r, Success(201, Response(r.docId, r.createdAt)))
    case Fail(_) => Finished(r, Errored)
    case Reread(_) => Finished(r, if r.key in s.rows then Answer(s.rows[r.key], r.hash) else InProgress)
  }

  function Step(s: State, ev: Event): State
    requires Enabled(s, ev)
  {
    if ev.Arrive? then s.(requests := s.requests[ev.id := Request(ev.key, ev.hash, ev.docId, ev.createdAt, Arrived, None, None)])
    else
      var r := s.requests[ev.id];
      var requests := s.requests[ev.id := Moved(s, r, ev)];
      if ev.Commit? then State(s.rows[r.key := r.row.value], s.decks[r.docId := r.deck.value], requests)
      else s.(requests := requests)
  }

  predicate EnabledRun(evs: seq<Event>)
    decreases |evs|, 0
  {
    evs == [] || (EnabledRun(evs[..|evs| - 1]) && Enabled(RunOf(evs[..|evs| - 1]), evs[|evs| - 1]))
  }

  /** The state after a run from the empty database. */
  function RunOf(evs: seq<Event>): State
    requires EnabledRun(evs)
    decreases |evs|, 1
  {
    if evs == [] then EMPTY else Step(RunOf(evs[..|evs| - 1]), evs[|evs| - 1])
  }

  /** A run goes on with whatever is enabled after it. */
  lemma RunGoesOn(evs: seq<Event>, ev: Event)
    requires EnabledRun(evs) && Enabled(RunOf(evs), ev)
    ensures EnabledRun(evs + [ev]) && RunOf(evs + [ev]) == Step(RunOf(evs), ev)
  {
    var more := evs + [ev];
    assert more[..|more| - 1] == evs && more[|more| - 1] == ev;
    hide Enabled, Step;
  }

  // ----- what every step keeps -----

  /** A committed row is complete and belongs to the deck it created. */
  predicate RowComplete(decks: map<string, Deck>, key: Key, row: Row) {
    && row.status > 0 && row.response.Some? && row.docId.Some?
    && row.response.value.docId == row.docId.value
    && row.docId.value in decks && decks[row.docId.value] == Deck(key, row.hash)
  }

  predicate RowsComplete(s: State) {
    forall key :: key in s.rows ==> RowComplete(s.decks, key, s.rows[key])
  }

  /** A committed deck is the one of its key's row. */
  predicate DecksRecorded(s: State) {
    forall d :: d in s.decks ==> s.decks[d].key in s.rows && s.rows[s.decks[d].key].docId == Some(d)
  }

  /** What an open transaction holds agrees with how far it has come. */
  predicate Buffered(r: Request) {
    && (Holds(r) <==> r.phase in {Reserved, DeckWritten, Filled})
    && (r.deck.Some? <==> r.phase in {DeckWritten, Filled})
    && (r.deck.Some? ==> r.deck.value == Deck(r.key, r.hash))
    && (r.phase == Filled ==> r.row == Some(Row(r.hash, 201, Some(Response(r.docId, r.createdAt)), Some(r.docId))))
  }

  /** A success replays the committed row of its key, for the same payload. */
  predicate Replays(s: State, r: Request) {
    r.phase.Done? && r.phase.outcome.Success? ==>
      && r.key in s.rows
      && s.rows[r.key].hash == r.hash
      && s.rows[r.key].status == r.phase.outcome.status
      && s.rows[r.key].response == Some(r.phase.outcome.response)
  }

  predicate RequestsSound(s: State) {
    forall i :: i in s.requests ==>
      && Buffered(s.requests[i])
      && Replays(s, s.requests[i])
      && (Holds(s.requests[i]) ==> s.requests[i].key !in s.rows)
      && (!s.requests[i].phase.Done? ==> s.requests[i].docId !in s.decks)
  }

  predicate OneHolder(s: State) {
    forall i, j :: i in s.requests && j in s.requests && i != j && Holds(s.requests[i]) && Holds(s.requests[j]) ==>
      s.requests[i].key != s.requests[j].key
  }

  predicate FreshIds(s: State) {
    forall i, j :: i in s.requests && j in s.requests && i != j ==> s.requests[i].docId != s.requests[j].docId
  }

  predicate Invariant(s: State) {
    RowsComplete(s) && DecksRecorded(s) && RequestsSound(s) && OneHolder(s) && FreshIds(s)
  }

  lemma MovedKeeps(s: State, r: Request, ev: Event)
    requires !ev.Arrive? && Buffered(r)
    requires ev.Commit? ==> r.phase == Filled
    requires match ev
             case ReadPrior(_) => r.phase == Arrived
             case Reserve(_) => r.phase == Missed
             case WriteDeck(_) => r.phase == Reserved
             case Complete(_) => r.phase == DeckWritten
             case Reread(_) => r.phase == Beaten
             case _ => true
    ensures var m := Moved(s, r, ev);
            && m.key == r.key && m.hash == r.hash && m.docId == r.docId && Buffered(m)
            && (Holds(m) ==> Holds(r) || (ev.Reserve? && r.key !in s.rows))
            && (r.phase.Done? ==> m.phase.Done?)
            && (ev.ReadPrior? || ev.Reread? ==> Replays(s, m))
            && (m.phase.Done? && m.phase.outcome.Success? ==> ev.ReadPrior? || ev.Reread? || ev.Commit?)
            && (ev.Commit? ==> m.phase == Done(Success(201, Response(r.docId, r.createdAt))) && !Holds(m))
  {
  }

  lemma ArriveKeeps(s: State, ev: Event)
    requires Invariant(s) && ev.Arrive? && Enabled(s, ev)
    ensures Invariant(Step(s, ev))
  {
  }

  /** A step that commits nothing. */
  lemma QuietStepKeeps(s: State, ev: Event)
    requires Invariant(s) && !ev.Arrive? && !ev.Commit? && Enabled(s, ev)
    ensures Invariant(Step(s, ev))
  {
    var t := Step(s, ev);
    QuietRequests(s, ev);
    QuietHolders(s, ev);
    hide RowsComplete, DecksRecorded, RequestsSound, OneHolder, FreshIds, Enabled, Moved;
    RowsOnly(s, t);
  }

  lemma QuietRequests(s: State, ev: Event)
    requires RequestsSound(s) && !ev.Arrive? && !ev.Commit? && Enabled(s, ev)
    ensures RequestsSound(Step(s, ev))
  {
    var r := s.requests[ev.id];
    MovedKeeps(s, r, ev);
    hide Moved, Buffered;
    var t := Step(s, ev);
    forall i | i in t.requests
      ensures Buffered(t.requests[i]) && Replays(t, t.requests[i])
      ensures Holds(t.requests[i]) ==> t.requests[i].key !in t.rows
      ensures !t.requests[i].phase.Done? ==> t.requests[i].docId !in t.decks
    {
      if i != ev.id {
        assert t.requests[i] == s.requests[i];
      }
    }
  }

  lemma QuietHolders(s: State, ev: Event)
    requires RequestsSound(s) && OneHolder(s) && FreshIds(s) && !ev.Arrive? && !ev.Commit? && Enabled(s, ev)
    ensures OneHolder(Step(s, ev)) && FreshIds(Step(s, ev))
  {
    MovedKeeps(s, s.requests[ev.id], ev);
    hide Moved, Buffered, Replays;
  }

  lemma RowsOnly(s: State, t: State)
    requires s.rows == t.rows && s.decks == t.decks && RowsComplete(s) && DecksRecorded(s)
    ensures RowsComplete(t) && DecksRecorded(t)
  {
  }

  /** The row and the deck a commit makes visible, under a key and an id that are both new. */
  lemma CommitWrites(s: State, ev: Event)
    requires RequestsSound(s) && ev.Commit? && Enabled(s, ev)
    ensures var r := s.requests[ev.id];
            && r.row == Some(Row(r.hash, 201, Some(Response(r.docId, r.createdAt)), Some(r.docId)))
            && r.deck == Some(Deck(r.key, r.hash))
            && r.key !in s.rows && r.docId !in s.decks
            && Step(s, ev) == State(s.rows[r.key := r.row.value], s.decks[r.docId := r.deck.value], s.requests[ev.id := Moved(s, r, ev)])
  {
  }

  lemma CommitRows(s: State, ev: Event)
    requires Invariant(s) && ev.Commit? && Enabled(s, ev)
    ensures RowsComplete(Step(s, ev)) && DecksRecorded(Step(s, ev))
  {
    CommitWrites(s, ev);
    hide Enabled, Moved, Step, RequestsSound, OneHolder, FreshIds;
  }

  lemma CommitRequests(s: State, ev: Event)
    requires Invariant(s) && ev.Commit? && Enabled(s, ev)
    ensures RequestsSound(Step(s, ev))
  {
    var r, t := s.requests[ev.id], Step(s, ev);
    CommitWrites(s, ev);
    MovedKeeps(s, r, ev);
    hide Step, Moved, Buffered, RowsComplete, DecksRecorded;
    forall i | i in t.requests
      ensures Buffered(t.requests[i]) && Replays(t, t.requests[i])
      ensures Holds(t.requests[i]) ==> t.requests[i].key !in t.rows
      ensures !t.requests[i].phase.Done? ==> t.requests[i].docId !in t.decks
    {
      if i != ev.id {
        assert t.requests[i] == s.requests[i] && s.requests[i].docId != r.docId;
      }
    }
  }

  lemma CommitHolders(s: State, ev: Event)
    requires Invariant(s) && ev.Commit? && Enabled(s, ev)
    ensures OneHolder(Step(s, ev)) && FreshIds(Step(s, ev))
  {
    CommitWrites(s, ev);
    MovedKeeps(s, s.requests[ev.id], ev);
    hide Step, Moved, Buffered, RowsComplete, DecksRecorded, Replays;
  }

  lemma CommitKeeps(s: State, ev: Event)
    requires Invariant(s) && ev.Commit? && Enabled(s, ev)
    ensures Invariant(Step(s, ev))
  {
    CommitRows(s, ev);
    CommitRequests(s, ev);
    CommitHolders(s, ev);
    hide Step, RowsComplete, DecksRecorded, RequestsSound, OneHolder, FreshIds;
  }

  lemma StepKeeps(s: State, ev: Event)
    requires Invariant(s) && Enabled(s, ev)
    ensures Invariant(Step(s, ev))
  {
    hide Invariant, Step;
    if ev.Arrive? {
      ArriveKeeps(s, ev);
    } else if ev.Commit? {
      CommitKeeps(s, ev);
    } else {
      QuietStepKeeps(s, ev);
    }
  }

  lemma {:induction false} RunKeeps(evs: seq<Event>)
    requires EnabledRun(evs)
    ensures Invariant(RunOf(evs))
  {
    hide Enabled, Step;
    if evs != [] {
      hide Invariant;
      RunKeeps(evs[..|evs| - 1]);
      StepKeeps(RunOf(evs[..|evs| - 1]), evs[|evs| - 1]);
    }
  }

  // ----- the promises -----

  /** At most one deck is ever committed per space, user and key. */
  lemma OneDeckPerKey(evs: seq<Event>, d: string, e: string)
    requires EnabledRun(evs) && d in RunOf(evs).decks && e in RunOf(evs).decks
    requires RunOf(evs).decks[d].key == RunOf(evs).decks[e].key
    ensures d == e
  {
    RunKeeps(evs);
    hide Enabled, Step, RunOf, EnabledRun;
  }

  /** All successes for one key answer the same payload with the same response. */
  lemma SuccessesAgree(evs: seq<Event>, i: nat, j: nat)
    requires EnabledRun(evs) && i in RunOf(evs).requests && j in RunOf(evs).requests
    requires var a, b := RunOf(evs).requests[i], RunOf(evs).requests[j];
             && a.key == b.key
             && a.phase.Done? && a.phase.outcome.Success? && b.phase.Done? && b.phase.outcome.Success?
    ensures RunOf(evs).requests[i].hash == RunOf(evs).requests[j].hash
    ensures RunOf(evs).requests[i].phase.outcome == RunOf(evs).requests[j].phase.outcome
  {
    RunKeeps(evs);
    hide Enabled, Step, RunOf, EnabledRun, Buffered;
  }

  /** Every success names a deck that exists, created for that key and payload. */
  lemma SuccessHasDeck(evs: seq<Event>, i: nat)
    requires EnabledRun(evs) && i in RunOf(evs).requests
    requires RunOf(evs).requests[i].phase.Done? && RunOf(evs).requests[i].phase.outcome.Success?
    ensures var r := RunOf(evs).requests[i]; var d := r.phase.outcome.response.docId;
            d in RunOf(evs).decks && RunOf(evs).decks[d] == Deck(r.key, r.hash)
  {
    RunKeeps(evs);
    hide Enabled, Step, RunOf, EnabledRun, Buffered;
  }

  /** Whatever happens later, a committed row never changes. */
  lemma RowsAreFinal(evs: seq<Event>, ev: Event, key: Key)
    requires EnabledRun(evs) && Enabled(RunOf(evs), ev) && key in RunOf(evs).rows
    ensures key in Step(RunOf(evs), ev).rows && Step(RunOf(evs), ev).rows[key] == RunOf(evs).rows[key]
  {
    RunKeeps(evs);
    hide RunOf, EnabledRun, Moved;
  }

  /**
   * A failed attempt leaves nothing behind: rows and decks are as before, and if it held the key
   * then the next request to insert it succeeds.
   */
  lemma FailureFreesTheKey(evs: seq<Event>, id: nat, next: nat)
    requires EnabledRun(evs) && Enabled(RunOf(evs), Fail(id)) && Holds(RunOf(evs).requests[id])
    requires next in RunOf(evs).requests && next != id && RunOf(evs).requests[next].phase == Missed
    requires RunOf(evs).requests[next].key == RunOf(evs).requests[id].key
    ensures var after := Step(RunOf(evs), Fail(id));
            && after.rows == RunOf(evs).rows && after.decks == RunOf(evs).decks
            && Enabled(after, Reserve(next))
            && Step(after, Reserve(next)).requests[next].phase == Reserved
  {
    RunKeeps(evs);
    hide RunOf, EnabledRun, Buffered, Replays;
    var s := RunOf(evs);
    var after := Step(s, Fail(id));
    forall j | j in after.requests && j != next && Holds(after.requests[j])
      ensures after.requests[j].key != after.requests[next].key
    {
      assert j != id && after.requests[j] == s.requests[j];
      assert Holds(s.requests[id]) && Holds(s.requests[j]);
    }
  }

  /** A committed row is always complete, so a request that reads one gets the response or a conflict. */
  lemma CommittedRowsAnswer(evs: seq<Event>, key: Key, hash: string)
    requires EnabledRun(evs) && key in RunOf(evs).rows
    ensures var row := RunOf(evs).rows[key];
            row.response.Some? && Answer(row, hash) == if row.hash == hash then Success(row.status, row.response.value) else PayloadConflict
  {
    RunKeeps(evs);
    hide Enabled, Step, RunOf, EnabledRun, Buffered, Replays;
  }

  // ----- the retry answer -----

  /** A request that lost the key to another finds that one's row. */
  predicate Decided(s: State) {
    forall i :: i in s.requests ==>
      && (s.requests[i].phase == Beaten ==> s.requests[i].key in s.rows)
      && s.requests[i].phase != Done(InProgress)
  }

  lemma StepDecides(s: State, ev: Event)
    requires RowsComplete(s) && Decided(s) && Enabled(s, ev)
    ensures Decided(Step(s, ev))
  {
  }

  /**
   * Since an insert waits for the holder of the key, a request that finds it taken rereads a
   * committed row: over every run none is told that a create is still in progress.
   */
  lemma {:induction false} NeverInProgress(evs: seq<Event>)
    requires EnabledRun(evs)
    ensures Decided(RunOf(evs))
  {
    if evs != [] {
      hide Enabled, Step, Invariant, Decided;
      NeverInProgress(evs[..|evs| - 1]);
      RunKeeps(evs[..|evs| - 1]);
      InvariantRows(RunOf(evs[..|evs| - 1]));
      StepDecides(RunOf(evs[..|evs| - 1]), evs[|evs| - 1]);
    }
  }

  lemma InvariantRows(s: State)
    requires Invariant(s)
    ensures RowsComplete(s)
  {
  }

  // ----- what a request gets -----

  /** How a request that finds this row ends. */
  function AnsweredBy(row: Row, hash: string): Phase
    requires row.response.Some?
  {
    if hash == row.hash then Done(Success(row.status, row.response.value)) else Done(PayloadConflict)
  }

  /**
   * A request that finds a committed row for its key is done: it gets the row's status and
   * response if the payload is the row's, and a conflict if it is another. It changes nothing else.
   */
  lemma FinderIsDone(evs: seq<Event>, ev: Event)
    requires EnabledRun(evs) && Enabled(RunOf(evs), ev) && (ev.ReadPrior? || ev.Reread?)
    requires RunOf(evs).requests[ev.id].key in RunOf(evs).rows
    ensures var s := RunOf(evs); var r := s.requests[ev.id];
            && s.rows[r.key].response.Some?
            && Step(s, ev) == s.(requests := s.requests[ev.id := r.(phase := AnsweredBy(s.rows[r.key], r.hash))])
  {
    var s, r := RunOf(evs), RunOf(evs).requests[ev.id];
    CommittedRowsAnswer(evs, r.key, r.hash);
    RunKeeps(evs);
    hide RunOf, EnabledRun, Answer, RowsComplete, DecksRecorded, OneHolder, FreshIds, Replays;
    assert Buffered(r);
  }

  /** A request that rereads always finds such a row, and one that reads none goes on. */
  lemma OthersGoOn(evs: seq<Event>, ev: Event)
    requires EnabledRun(evs) && Enabled(RunOf(evs), ev) && (ev.ReadPrior? || ev.Reread?)
    requires RunOf(evs).requests[ev.id].key !in RunOf(evs).rows
    ensures ev.ReadPrior?
    ensures var s := RunOf(evs); Step(s, ev) == s.(requests := s.requests[ev.id := s.requests[ev.id].(phase := Missed)])
  {
    NeverInProgress(evs);
    hide RunOf, EnabledRun;
  }

  /** After a success every retry of the payload ends in that very success, and any other payload in a conflict. */
  lemma RetryReplays(evs: seq<Event>, i: nat, ev: Event)
    requires EnabledRun(evs) && i in RunOf(evs).requests
    requires RunOf(evs).requests[i].phase.Done? && RunOf(evs).requests[i].phase.outcome.Success?
    requires Enabled(RunOf(evs), ev) && (ev.ReadPrior? || ev.Reread?) && RunOf(evs).requests[ev.id].key == RunOf(evs).requests[i].key
    ensures Step(RunOf(evs), ev).requests[ev.id].phase
         == (if RunOf(evs).requests[ev.id].hash == RunOf(evs).requests[i].hash then RunOf(evs).requests[i].phase else Done(PayloadConflict))
  {
    RunKeeps(evs);
    hide RunOf, EnabledRun, Enabled, Step, RowsComplete, DecksRecorded, OneHolder, FreshIds, Buffered;
    FinderIsDone(evs, ev);
  }

  /** The steps of a creation that nothing interrupts. */
  function Uninterrupted(id: nat): seq<Event> {
    [ReadPrior(id), Reserve(id), WriteDeck(id), Complete(id), Commit(id)]
  }

  ghost predicate StepsTo(s: State, ev: Event, t: State) {
    Enabled(s, ev) && Step(s, ev) == t
  }

  /** No row has the key of the request, and no other transaction holds it. */
  predicate Alone(s: State, id: nat) {
    && id in s.requests && s.requests[id].key !in s.rows
    && forall j :: j in s.requests && j != id && Holds(s.requests[j]) ==> s.requests[j].key != s.requests[id].key
  }

  function With(s: State, id: nat, r: Request): State {
    s.(requests := s.requests[id := r])
  }

  /** The request after the first `k` of those steps. */
  function Ahead(r: Request, k: nat): Request {
    match k
    case 0 => r
    case 1 => r.(phase := Missed)
    case 2 => r.(phase := Reserved, row := Some(Row(r.hash, 0, None, None)))
    case 3 => r.(phase := DeckWritten, row := Some(Row(r.hash, 0, None, None)), deck := Some(Deck(r.key, r.hash)))
    case _ => r.(phase := Filled, row := Some(Row(r.hash, 201, Some(Response(r.docId, r.createdAt)), Some(r.docId))), deck := Some(Deck(r.key, r.hash)))
  }

  lemma GoesAhead(s: State, id: nat, r: Request, k: nat)
    requires k < 4 && Alone(s, id) && s.requests[id] == Ahead(r, k) && (k == 0 ==> r.phase == Arrived)
    ensures StepsTo(s, Uninterrupted(id)[k], With(s, id, Ahead(r, k + 1)))
    ensures Alone(With(s, id, Ahead(r, k + 1)), id)
  {
  }

  lemma WithAgain(s: State, id: nat, r: Request, m: Request)
    ensures With(With(s, id, r), id, m) == With(s, id, m) && With(s, id, m).requests[id] == m
  {
    assert s.requests[id := r][id := m] == s.requests[id := m];
  }

  lemma CommitsAhead(s: State, id: nat, r: Request)
    requires id in s.requests
    ensures StepsTo(With(s, id, Ahead(r, 4)), Commit(id),
                    State(s.rows[r.key := Row(r.hash, 201, Some(Response(r.docId, r.createdAt)), Some(r.docId))],
                          s.decks[r.docId := Deck(r.key, r.hash)],
                          s.requests[id := r.(phase := Done(Success(201, Response(r.docId, r.createdAt))), row := None, deck := None)]))
  {
    var done := r.(phase := Done(Success(201, Response(r.docId, r.createdAt))), row := None, deck := None);
    assert s.requests[id := Ahead(r, 4)][id := done] == s.requests[id := done];
  }

  /**
   * Where no row has the key and no other transaction holds it, an arrived request that is not
   * interrupted creates its deck: five steps later the row, the deck and the answer are there.
   */
  lemma UninterruptedCreates(s: State, id: nat) returns (states: seq<State>)
    requires Alone(s, id) && s.requests[id].phase == Arrived
    ensures |states| == 6 && states[0] == s
    ensures forall k :: 0 <= k < 5 ==> StepsTo(states[k], Uninterrupted(id)[k], states[k + 1])
    ensures var r := s.requests[id]; var response := Response(r.docId, r.createdAt);
            states[5] == State(s.rows[r.key := Row(r.hash, 201, Some(response), Some(r.docId))],
                               s.decks[r.docId := Deck(r.key, r.hash)],
                               s.requests[id := r.(phase := Done(Success(201, response)), row := None, deck := None)])
  {
    var r := s.requests[id];
    hide StepsTo, Alone, With, Ahead;
    states := [s];
    for k := 0 to 4
      invariant |states| == k + 1 && states[0] == s
      invariant states[k] == if k == 0 then s else With(s, id, Ahead(r, k))
      invariant Alone(states[k], id) && states[k].requests[id] == Ahead(r, k)
      invariant forall j :: 0 <= j < k ==> StepsTo(states[j], Uninterrupted(id)[j], states[j + 1])
    {
      GoesAhead(states[k], id, r, k);
      WithAgain(s, id, Ahead(r, k), Ahead(r, k + 1));
      states := states + [With(s, id, Ahead(r, k + 1))];
    }
    CommitsAhead(s, id, r);
    states := states + [State(s.rows[r.key := Row(r.hash, 201, Some(Response(r.docId, r.createdAt)), Some(r.docId))],
                              s.decks[r.docId := Deck(r.key, r.hash)],
                              s.requests[id := r.(phase := Done(Success(201, Response(r.docId, r.createdAt))), row := None, deck := None)])];
  }
}
