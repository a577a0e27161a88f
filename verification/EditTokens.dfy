/**
 * Base-version tokens: a token is the state vector its holder read. Commits, restores, client
 * updates, stores and reloads interleave freely; no token is accepted twice as long as no
 * reload goes back behind an accepted commit or a restore.
 */
module EditTokens {
  import opened Prelude
  import opened StateVectors

  datatype CommitError<+E> = BaseVersionStale | EditRefused(error: E)

  /**
   * A live document as the write paths see it: content, state vector and the counter field, and
   * what the stored row holds of the first two. The row was loaded from or written by it.
   */
  class LiveDocument<C(!new), E(!new)> {
    var content: C
    var sv: Vector
    var self: int
    var editVersion: nat
    var storedContent: C
    var stored: Vector

    constructor (content: C, sv: Vector, self: int)
      ensures this.content == content && this.sv == sv && this.self == self && editVersion == 0
      ensures storedContent == content && stored == sv
    {
      this.content, this.sv, this.self, this.editVersion := content, sv, self, 0;
      this.storedContent, this.stored := content, sv;
    }

    /** The counter is one more struct of the acting client. */
    method AdvanceEditVersion()
      modifies this`editVersion, this`sv
      ensures editVersion == old(editVersion) + 1 && sv == Advanced(old(sv), self, 1)
      ensures AtMost(old(sv), sv) && !AtMost(sv, old(sv))
    {
      editVersion := editVersion + 1;
      sv := Advanced(sv, self, 1);
    }

    /**
     * A guarded commit: the token is compared first; the edit sees the guarded content and either
     * refuses or yields the new content and the number of structs it adds.
     */
    method Commit(token: Vector, edit: C -> Result<(C, nat), E>) returns (r: Result<Vector, CommitError<E>>)
      modifies this`content, this`sv, this`editVersion
      ensures token != old(sv) ==> r == Err(BaseVersionStale)
      ensures token == old(sv) && edit(old(content)).Err? ==> r == Err(EditRefused(edit(old(content)).error))
      ensures token == old(sv) && edit(old(content)).Ok? ==> r == Ok(sv)
      ensures r.Err? ==> content == old(content) && sv == old(sv) && editVersion == old(editVersion)
      ensures r.Ok? ==> content == edit(old(content)).value.0
      ensures r.Ok? ==> editVersion == old(editVersion) + 1 && WentUp(old(sv), sv, self, edit(old(content)).value.1 + 1)
      ensures Live(sv, self, stored) == Next(Live(old(sv), self, stored), Event.Commit(token, edit(old(content)).Ok?, AddedBy(edit(old(content)))))
    {
      if token != sv {
        return Err(BaseVersionStale);
      }
      var outcome := edit(content);
      if outcome.Err? {
        return Err(EditRefused(outcome.error));
      }
      AdvancedWentUp(sv, self, outcome.value.1, 1);
      content := outcome.value.0;
      sv := Advanced(sv, self, outcome.value.1);
      AdvanceEditVersion();
      return Ok(sv);
    }

    /** Restoring a document or sheet version bumps the counter, even when it only deletes. */
    method RestoreVersion(target: C, added: nat)
      modifies this`content, this`sv, this`editVersion
      ensures content == target && editVersion == old(editVersion) + 1 && WentUp(old(sv), sv, self, added + 1)
      ensures Live(sv, self, stored) == Next(Live(old(sv), self, stored), Restore(added))
    {
      AdvancedWentUp(sv, self, added, 1);
      content := target;
      sv := Advanced(sv, self, added);
      AdvanceEditVersion();
    }

    /** A store is refused when the document has grown too large; the row then stays as it was. */
    method Store(fits: bool)
      modifies this`storedContent, this`stored
      ensures if fits then storedContent == content && stored == sv else storedContent == old(storedContent) && stored == old(stored)
      ensures Live(sv, self, stored) == Next(Live(sv, self, old(stored)), Event.Store(fits))
    {
      if fits {
        storedContent, stored := content, sv;
      }
    }

    /** After an unload the next load continues from the row, under another client id. */
    method Reload(other: int)
      modifies this`content, this`sv, this`self
      ensures content == storedContent && sv == stored && self == other
      ensures Live(sv, self, stored) == Next(Live(old(sv), old(self), stored), Event.Reload(other))
    {
      content, sv, self := storedContent, stored, other;
    }
  }

  function AddedBy<C, E>(outcome: Result<(C, nat), E>): nat {
    if outcome.Ok? then outcome.value.1 else 0
  }

  // ----- runs -----

  datatype Live = Live(sv: Vector, self: int, stored: Vector)

  /**
   * `added` is what the edit or restore adds, and `fits` whether the content accepts the edit or
   * the row the document. An update brings structs of any clients; a reload continues from the
   * row under another client id.
   */
  datatype Event =
    | Commit(token: Vector, fits: bool, added: nat)
    | Restore(added: nat)
    | BoardRestore(added: nat)
    | ClientUpdate(to: Vector)
    | Store(fits: bool)
    | Reload(self: int)

  predicate IsAccepted(l: Live, ev: Event) {
    ev.Commit? && ev.token == l.sv && ev.fits
  }

  /** The steps that bump the counter: accepted commits, and restores of a document or sheet. */
  predicate Advances(l: Live, ev: Event) {
    IsAccepted(l, ev) || ev.Restore?
  }

  function Next(l: Live, ev: Event): Live {
    match ev
    case Commit(_, _, added) => if IsAccepted(l, ev) then Live(Advanced(Advanced(l.sv, l.self, added), l.self, 1), l.self, l.stored) else l
    case Restore(added) => Live(Advanced(Advanced(l.sv, l.self, added), l.self, 1), l.self, l.stored)
    case BoardRestore(added) => Live(Advanced(l.sv, l.self, added), l.self, l.stored)
    case ClientUpdate(to) => Live(to, l.self, l.stored)
    case Store(fits) => if fits then Live(l.sv, l.self, l.sv) else l
    case Reload(self) => Live(l.stored, self, l.stored)
  }

  /** A client update never takes structs away. */
  predicate Legal(l: Live, ev: Event) {
    ev.ClientUpdate? ==> AtMost(l.sv, ev.to)
  }

  function After(l: Live, evs: seq<Event>, n: nat): Live
    requires n <= |evs|
  {
    if n == 0 then l else Next(After(l, evs, n - 1), evs[n - 1])
  }

  predicate LegalRun(l: Live, evs: seq<Event>) {
    forall n :: 0 <= n < |evs| ==> Legal(After(l, evs, n), evs[n])
  }

  /** The row holds all of the document when it is unloaded. */
  predicate SavedAt(l: Live, evs: seq<Event>, n: nat)
    requires n < |evs|
  {
    evs[n].Reload? ==> AtMost(After(l, evs, n).sv, After(l, evs, n).stored)
  }

  lemma StepNeverDecreases(l: Live, ev: Event)
    requires Legal(l, ev) && (ev.Reload? ==> AtMost(l.sv, l.stored))
    ensures AtMost(l.sv, Next(l, ev).sv)
    ensures Advances(l, ev) ==> Clock(l.sv, l.self) < Clock(Next(l, ev).sv, l.self)
  {
  }

  lemma RunStep(l: Live, evs: seq<Event>, n: nat)
    requires LegalRun(l, evs) && n < |evs| && (evs[n].Reload? ==> AtMost(After(l, evs, n).sv, After(l, evs, n).stored))
    ensures AtMost(After(l, evs, n).sv, After(l, evs, n + 1).sv)
    ensures Advances(After(l, evs, n), evs[n]) ==> Clock(After(l, evs, n).sv, After(l, evs, n).self) < Clock(After(l, evs, n + 1).sv, After(l, evs, n).self)
  {
    assert Legal(After(l, evs, n), evs[n]);
    hide AtMost, Legal, Clock, Advances, Next, LegalRun;
    StepNeverDecreases(After(l, evs, n), evs[n]);
  }

  lemma ReloadIs(l: Live, evs: seq<Event>, n: nat)
    requires n < |evs| && evs[n].Reload?
    ensures After(l, evs, n + 1).sv == After(l, evs, n).stored && After(l, evs, n + 1).stored == After(l, evs, n).stored
  {
  }

  lemma RowIs(l: Live, evs: seq<Event>, n: nat)
    requires n < |evs|
    ensures After(l, evs, n + 1).stored == if evs[n].Store? && evs[n].fits then After(l, evs, n).sv else After(l, evs, n).stored
    ensures evs[n].Store? ==> After(l, evs, n + 1).sv == After(l, evs, n).sv
  {
  }

  lemma {:induction false} GrowsBetween(l: Live, evs: seq<Event>, i: nat, j: nat)
    requires LegalRun(l, evs) && i <= j <= |evs| && forall n :: i <= n < j ==> SavedAt(l, evs, n)
    ensures AtMost(After(l, evs, i).sv, After(l, evs, j).sv)
    decreases j
  {
    hide AtMost, LegalRun, After;
    if i == j {
      AtMostItself(After(l, evs, i).sv);
    } else {
      GrowsBetween(l, evs, i, j - 1);
      assert SavedAt(l, evs, j - 1);
      RunStep(l, evs, j - 1);
      AtMostTransitive(After(l, evs, i).sv, After(l, evs, j - 1).sv, After(l, evs, j).sv);
    }
  }

  /** State vectors never decrease over a run exactly when no reload comes before all is stored. */
  lemma VectorsNeverDecreaseIff(l: Live, evs: seq<Event>)
    requires LegalRun(l, evs)
    ensures (forall i, j :: 0 <= i <= j <= |evs| ==> AtMost(After(l, evs, i).sv, After(l, evs, j).sv)) <==>
            (forall n :: 0 <= n < |evs| ==> SavedAt(l, evs, n))
  {
    hide AtMost, LegalRun, After, SavedAt;
    if forall n :: 0 <= n < |evs| ==> SavedAt(l, evs, n) {
      forall i, j | 0 <= i <= j <= |evs|
        ensures AtMost(After(l, evs, i).sv, After(l, evs, j).sv)
      {
        GrowsBetween(l, evs, i, j);
      }
    } else {
      var n :| 0 <= n < |evs| && !SavedAt(l, evs, n);
      UnsavedShrinks(l, evs, n);
    }
  }

  lemma UnsavedShrinks(l: Live, evs: seq<Event>, n: nat)
    requires n < |evs| && !SavedAt(l, evs, n)
    ensures !AtMost(After(l, evs, n).sv, After(l, evs, n + 1).sv)
  {
    hide AtMost;
    ReloadIs(l, evs, n);
  }

  // ----- tokens -----

  /** Every reload continues from a row that has what each earlier commit and restore left. */
  predicate KeepsAdvances(l: Live, evs: seq<Event>) {
    forall k, n :: 0 <= k < n < |evs| && Advances(After(l, evs, k), evs[k]) && evs[n].Reload? ==>
      AtMost(After(l, evs, k + 1).sv, After(l, evs, n).stored)
  }

  lemma {:induction false} AdvanceStays(l: Live, evs: seq<Event>, k: nat, j: nat)
    requires LegalRun(l, evs) && KeepsAdvances(l, evs) && k < j <= |evs| && Advances(After(l, evs, k), evs[k])
    ensures AtMost(After(l, evs, k + 1).sv, After(l, evs, j).sv)
    decreases j
  {
    hide AtMost, LegalRun, After, Advances;
    if k + 1 == j {
      AtMostItself(After(l, evs, j).sv);
    } else {
      AdvanceStays(l, evs, k, j - 1);
      if evs[j - 1].Reload? {
        ReloadIs(l, evs, j - 1);
      } else {
        RunStep(l, evs, j - 1);
        AtMostTransitive(After(l, evs, k + 1).sv, After(l, evs, j - 1).sv, After(l, evs, j).sv);
      }
    }
  }

  /** What was read before a strictly advancing step is never current again. */
  lemma AdvancedForGood(l: Live, evs: seq<Event>, i: nat, k: nat, j: nat)
    requires LegalRun(l, evs) && KeepsAdvances(l, evs) && i <= k < j <= |evs|
    requires Advances(After(l, evs, k), evs[k]) && AtMost(After(l, evs, i).sv, After(l, evs, k).sv)
    ensures !AtMost(After(l, evs, j).sv, After(l, evs, i).sv)
  {
    hide AtMost, LegalRun, After, Advances, KeepsAdvances;
    AdvanceStays(l, evs, k, j);
    if evs[k].Reload? {
      NoReloadAdvances(After(l, evs, k), evs[k]);
    }
    RunStep(l, evs, k);
    Squeezed(After(l, evs, i).sv, After(l, evs, k).sv, After(l, evs, k).self, After(l, evs, j).sv, After(l, evs, k + 1).sv);
  }

  lemma NoReloadAdvances(l: Live, ev: Event)
    requires ev.Reload?
    ensures !Advances(l, ev)
  {
  }

  lemma Squeezed(a: Vector, b: Vector, client: int, c: Vector, mid: Vector)
    requires AtMost(a, b) && Clock(b, client) < Clock(mid, client) && AtMost(mid, c)
    ensures !AtMost(c, a)
  {
    assert client in mid;
  }

  /** No token is accepted twice, whatever happens in between. */
  lemma NoTokenTwice(l: Live, evs: seq<Event>, i: nat, j: nat)
    requires LegalRun(l, evs) && KeepsAdvances(l, evs) && i < j < |evs|
    requires IsAccepted(After(l, evs, i), evs[i]) && IsAccepted(After(l, evs, j), evs[j])
    ensures evs[i].token != evs[j].token
  {
    AdvancedForGood(l, evs, i, i, j);
  }

  /**
   * A token read before an accepted commit or a document or sheet restore, and not lost by then,
   * is refused forever after.
   */
  lemma ReadBeforeIsRefusedAfter(l: Live, evs: seq<Event>, i: nat, k: nat, j: nat)
    requires LegalRun(l, evs) && KeepsAdvances(l, evs) && i <= k < j < |evs|
    requires Advances(After(l, evs, k), evs[k]) && AtMost(After(l, evs, i).sv, After(l, evs, k).sv)
    requires evs[j].Commit? && evs[j].token == After(l, evs, i).sv
    ensures !IsAccepted(After(l, evs, j), evs[j]) && After(l, evs, j + 1) == After(l, evs, j)
  {
    AdvancedForGood(l, evs, i, k, j);
  }

  // ----- when a row falls behind -----

  /** Some legal continuation, storing all it has before it reloads, accepts the token. */
  ghost predicate AcceptsLater(l: Live, token: Vector) {
    exists evs, j :: AcceptsIn(l, evs, j, token)
  }

  predicate AcceptsIn(l: Live, evs: seq<Event>, j: int, token: Vector) {
    && LegalRun(l, evs)
    && (forall n :: 0 <= n < |evs| ==> SavedAt(l, evs, n))
    && 0 <= j < |evs|
    && IsAccepted(After(l, evs, j), evs[j]) && evs[j].token == token
  }

  /** A token can still be accepted exactly while the document has nothing the token has not seen. */
  lemma AcceptsLaterIff(l: Live, token: Vector)
    ensures AcceptsLater(l, token) <==> AtMost(l.sv, token)
  {
    if AcceptsLater(l, token) {
      var evs, j :| AcceptsIn(l, evs, j, token);
      GrowsBetween(l, evs, 0, j);
      assert After(l, evs, 0) == l;
    }
    if AtMost(l.sv, token) {
      var evs := [ClientUpdate(token), Event.Commit(token, true, 0)];
      assert After(l, evs, 0) == l && After(l, evs, 1).sv == token;
      assert AcceptsIn(l, evs, 1, token);
    }
  }

  lemma AfterNone(l: Live, evs: seq<Event>)
    ensures After(l, evs, 0) == l
  {
  }

  lemma {:induction false} RowIsBehind(l: Live, evs: seq<Event>, n: nat)
    requires LegalRun(l, evs) && AtMost(l.stored, l.sv) && n <= |evs|
    ensures AtMost(After(l, evs, n).stored, After(l, evs, n).sv)
  {
    AfterNone(l, evs);
    hide AtMost, LegalRun, After;
    if n > 0 {
      RowIsBehind(l, evs, n - 1);
      RowIs(l, evs, n - 1);
      AtMostItself(After(l, evs, n).stored);
      if evs[n - 1].Reload? {
        ReloadIs(l, evs, n - 1);
      } else {
        RunStep(l, evs, n - 1);
        AtMostTransitive(After(l, evs, n - 1).stored, After(l, evs, n - 1).sv, After(l, evs, n).sv);
      }
    }
  }

  /** A row is stored either before step `k` or with all it left. */
  lemma {:induction false} RowBeforeOrAfter(l: Live, evs: seq<Event>, k: nat, n: nat)
    requires LegalRun(l, evs) && AtMost(l.stored, l.sv) && k < n <= |evs| && Advances(After(l, evs, k), evs[k])
    requires forall m :: k < m <= n ==> !AtMost(After(l, evs, m).sv, After(l, evs, k).sv)
    ensures AtMost(After(l, evs, k + 1).sv, After(l, evs, n).sv)
    ensures AtMost(After(l, evs, n).stored, After(l, evs, k).sv) || AtMost(After(l, evs, k + 1).sv, After(l, evs, n).stored)
    decreases n
  {
    hide AtMost, LegalRun, After, Advances;
    RowIs(l, evs, n - 1);
    if n == k + 1 {
      AtMostItself(After(l, evs, n).sv);
      RowIsBehind(l, evs, k);
    } else {
      RowBeforeOrAfter(l, evs, k, n - 1);
      if evs[n - 1].Reload? {
        ReloadIs(l, evs, n - 1);
      } else {
        RunStep(l, evs, n - 1);
        AtMostTransitive(After(l, evs, k + 1).sv, After(l, evs, n - 1).sv, After(l, evs, n).sv);
      }
    }
  }

  /** Tokens of steps that bump the counter are never acceptable again. */
  ghost predicate StayRetired(l: Live, evs: seq<Event>) {
    forall k, n :: 0 <= k < n <= |evs| && Advances(After(l, evs, k), evs[k]) ==> !AcceptsLater(After(l, evs, n), After(l, evs, k).sv)
  }

  lemma RetiredIf(l: Live, evs: seq<Event>)
    requires LegalRun(l, evs) && KeepsAdvances(l, evs)
    ensures StayRetired(l, evs)
  {
    hide AcceptsLater, AtMost, After, Advances, LegalRun, KeepsAdvances;
    forall k, n | 0 <= k < n <= |evs| && Advances(After(l, evs, k), evs[k])
      ensures !AcceptsLater(After(l, evs, n), After(l, evs, k).sv)
    {
      AtMostItself(After(l, evs, k).sv);
      AdvancedForGood(l, evs, k, k, n);
      AcceptsLaterIff(After(l, evs, n), After(l, evs, k).sv);
    }
  }

  lemma KeptIfRetired(l: Live, evs: seq<Event>)
    requires LegalRun(l, evs) && AtMost(l.stored, l.sv) && StayRetired(l, evs)
    ensures KeepsAdvances(l, evs)
  {
    hide AcceptsLater, AtMost, After, Advances, LegalRun;
    forall k, n | 0 <= k < n <= |evs| && Advances(After(l, evs, k), evs[k])
      ensures !AtMost(After(l, evs, n).sv, After(l, evs, k).sv)
    {
      AcceptsLaterIff(After(l, evs, n), After(l, evs, k).sv);
    }
    forall k, n | 0 <= k < n < |evs| && Advances(After(l, evs, k), evs[k]) && evs[n].Reload?
      ensures AtMost(After(l, evs, k + 1).sv, After(l, evs, n).stored)
    {
      RowBeforeOrAfter(l, evs, k, n);
      ReloadIs(l, evs, n);
      assert !AtMost(After(l, evs, n + 1).sv, After(l, evs, k).sv);
    }
  }

  /**
   * At no later point of a run can the token of an accepted commit, or one current before a
   * restore, be accepted again, exactly when every reload finds in the row what those steps left.
   */
  lemma TokensStayRetiredIff(l: Live, evs: seq<Event>)
    requires LegalRun(l, evs) && AtMost(l.stored, l.sv)
    ensures StayRetired(l, evs) <==> KeepsAdvances(l, evs)
  {
    hide *;
    if KeepsAdvances(l, evs) {
      RetiredIf(l, evs);
    }
    if StayRetired(l, evs) {
      KeptIfRetired(l, evs);
    }
  }

  lemma AtMostItself(sv: Vector)
    ensures AtMost(sv, sv)
  {
  }

  /** A commit whose store is refused before an unload: its token is accepted a second time. */
  lemma RefusedStoreRevivesToken(token: Vector, self: int, other: int)
    ensures var l := Live(token, self, token);
            var evs := [Event.Commit(token, true, 0), Store(false), Reload(other), Event.Commit(token, true, 0)];
            && LegalRun(l, evs)
            && IsAccepted(After(l, evs, 0), evs[0]) && IsAccepted(After(l, evs, 3), evs[3])
            && !KeepsAdvances(l, evs)
  {
    var l := Live(token, self, token);
    var evs := [Event.Commit(token, true, 0), Store(false), Reload(other), Event.Commit(token, true, 0)];
    assert After(l, evs, 0) == l && After(l, evs, 1) == Live(Advanced(token, self, 1), self, token);
    assert After(l, evs, 2) == After(l, evs, 1) && After(l, evs, 3) == Live(token, other, token);
    assert !AtMost(After(l, evs, 1).sv, After(l, evs, 2).stored);
  }

  /** A board restore retires the current token exactly when it adds something. */
  lemma BoardRestoreRetiresIff(l: Live, added: nat)
    ensures Next(l, BoardRestore(added)).sv != l.sv <==> added > 0
    ensures IsAccepted(Next(l, BoardRestore(added)), Event.Commit(l.sv, true, 0)) <==> added == 0
  {
  }
}
