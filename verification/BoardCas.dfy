/**
 * Compare-and-set arbitration of element upserts: what a batch leaves under each id, when a
 * replay changes nothing, when the order of a batch matters, and what tombstones withstand.
 */
module BoardCas {
  import opened Prelude
  import opened JsValues
  import opened WhiteboardSchema
  import opened EntryMaps

  /** A normalized element of a batch, with its id and its stamp. */
  datatype Upsert = Upsert(id: string, stamp: Stamp, fields: Entry)

  /** The stamp and the id repeat fields of the element, as normalization guarantees. */
  predicate WellFormed(u: Upsert) {
    && u.stamp.version >= 1
    && Get(u.fields, "version") == Num(u.stamp.version as real)
    && Get(u.fields, "versionNonce") == Num(u.stamp.nonce as real)
    && Get(u.fields, "id") == Str(u.id)
    && "__proto__" !in u.fields
  }

  /** Both halves of the live stamp are coerced, so a stored nonce below one reads as one. */
  function CasOf(s: Option<Stored>): (c: Option<Stamp>)
    ensures c.Some? ==> c.value.version >= 1 && c.value.nonce >= 1
  {
    if s.Some? && s.value.YMap? then
      Some(Stamp(CoerceVersion(Get(s.value.fields, "version")), CoerceVersion(Get(s.value.fields, "versionNonce"))))
    else None
  }

  function Put(s: Option<Stored>, u: Upsert): Stored {
    YMap(Written(WriteTarget(s), u.fields))
  }

  /** One upsert against what its id holds. */
  function UpsertSlot(s: Option<Stored>, u: Upsert): Option<Stored> {
    if Supersedes(CasOf(s), u.stamp) then Some(Put(s, u)) else s
  }

  function UpsertsSlot(s: Option<Stored>, us: seq<Upsert>): Option<Stored> {
    if us == [] then s else UpsertSlot(UpsertsSlot(s, us[..|us| - 1]), us[|us| - 1])
  }

  function UpsertOne(els: map<string, Stored>, u: Upsert): map<string, Stored> {
    if Supersedes(CasOf(Slot(els, u.id)), u.stamp) then els[u.id := Put(Slot(els, u.id), u)] else els
  }

  /** A batch of upserts, in order. */
  function Upserts(els: map<string, Stored>, us: seq<Upsert>): map<string, Stored> {
    if us == [] then els else UpsertOne(Upserts(els, us[..|us| - 1]), us[|us| - 1])
  }

  /** The upserts of a batch for one id, in order. */
  function ForId(us: seq<Upsert>, id: string): seq<Upsert> {
    if us == [] then []
    else
      var front := ForId(us[..|us| - 1], id);
      if us[|us| - 1].id == id then front + [us[|us| - 1]] else front
  }

  lemma SlotOfOne(els: map<string, Stored>, u: Upsert, id: string)
    ensures Slot(UpsertOne(els, u), id) == if u.id == id then UpsertSlot(Slot(els, id), u) else Slot(els, id)
  {
    hide Supersedes, Put, CasOf;
  }

  lemma Snoc(els: map<string, Stored>, us: seq<Upsert>, u: Upsert, id: string, s: Option<Stored>)
    ensures Upserts(els, us + [u]) == UpsertOne(Upserts(els, us), u)
    ensures UpsertsSlot(s, us + [u]) == UpsertSlot(UpsertsSlot(s, us), u)
    ensures ForId(us + [u], id) == if u.id == id then ForId(us, id) + [u] else ForId(us, id)
  {
    hide UpsertOne, UpsertSlot;
    assert (us + [u])[..|us + [u]| - 1] == us;
  }

  /** What a batch does to one id depends only on what it held and on the upserts for it. */
  lemma {:induction false} SlotOfUpserts(els: map<string, Stored>, us: seq<Upsert>, id: string)
    ensures Slot(Upserts(els, us), id) == UpsertsSlot(Slot(els, id), ForId(us, id))
  {
    if us != [] {
      hide *;
      var front, last := us[..|us| - 1], us[|us| - 1];
      assert us == front + [last];
      SlotOfUpserts(els, front, id);
      Snoc(els, front, last, id, Slot(els, id));
      Snoc(els, ForId(front, id), last, id, Slot(els, id));
      SlotOfOne(Upserts(els, front), last, id);
    }
  }

  /** Ids that no upsert names keep what they hold. */
  lemma UnmentionedUntouched(els: map<string, Stored>, us: seq<Upsert>, id: string)
    requires forall u :: u in us ==> u.id != id
    ensures Slot(Upserts(els, us), id) == Slot(els, id)
  {
    SlotOfUpserts(els, us, id);
    NoneForId(us, id);
  }

  lemma {:induction false} ForIdMembers(us: seq<Upsert>, id: string)
    ensures forall u :: u in ForId(us, id) <==> u in us && u.id == id
  {
    if us != [] {
      ForIdMembers(us[..|us| - 1], id);
      assert us == us[..|us| - 1] + [us[|us| - 1]];
    }
  }

  lemma NoneForId(us: seq<Upsert>, id: string)
    requires forall u :: u in us ==> u.id != id
    ensures ForId(us, id) == []
  {
    ForIdMembers(us, id);
    assert ForId(us, id) != [] ==> ForId(us, id)[0] in ForId(us, id);
  }

  // ----- ranks -----

  /** Arbitration sees no difference between nonces below one. */
  function Clamped(n: int): int {
    if n < 1 then 0 else n
  }

  /** `a` wins over `b` whatever the order in which they arrive. */
  predicate Outranks(a: Stamp, b: Stamp) {
    a.version > b.version || (a.version == b.version && Clamped(a.nonce) < Clamped(b.nonce))
  }

  predicate Tied(a: Stamp, b: Stamp) {
    a.version == b.version && Clamped(a.nonce) == Clamped(b.nonce)
  }

  // ----- what one write leaves -----

  /** What an id holds under a field. */
  function FieldAt(s: Option<Stored>, f: string): Val {
    if IsEntry(s) then Get(s.value.fields, f) else Undefined
  }

  /** Writing the upsert fixes the field: it has one, or a live one goes. Only inherited names are exempt. */
  predicate Decides(u: Upsert, f: string) {
    f in u.fields || f !in INHERITED
  }

  ghost predicate Same(a: Entry, b: Entry) {
    forall field :: FieldEquals(Get(a, field), Get(b, field))
  }

  /** The stored entry agrees with the upsert, up to field equality, on every field the upsert decides. */
  ghost predicate Holds(s: Option<Stored>, u: Upsert) {
    IsEntry(s) && forall f :: Decides(u, f) ==> FieldEquals(FieldAt(s, f), Get(u.fields, f))
  }

  lemma FieldEqualsLaws(a: Val, b: Val, c: Val)
    ensures FieldEquals(a, a)
    ensures FieldEquals(a, b) ==> FieldEquals(b, a)
    ensures FieldEquals(a, b) && FieldEquals(b, c) ==> FieldEquals(a, c)
    ensures FieldEquals(a, Undefined) ==> a == Undefined
  {
    hide JsonForm;
  }

  lemma PutField(s: Option<Stored>, u: Upsert, f: string)
    requires WellFormed(u)
    ensures FieldEquals(FieldAt(Some(Put(s, u)), f), if Decides(u, f) then Get(u.fields, f) else FieldAt(s, f))
  {
    hide JsonForm, INHERITED;
    WrittenAt(WriteTarget(s), u.fields, f);
    hide Written;
  }

  lemma PutHolds(s: Option<Stored>, u: Upsert)
    requires WellFormed(u)
    ensures Holds(Some(Put(s, u)), u)
    ensures CasOf(Some(Put(s, u))) == Some(CoercedStamp(u.stamp))
  {
    hide FieldEquals, Written, WellFormed, Decides;
    var after := Some(Put(s, u));
    forall f | Decides(u, f)
      ensures FieldEquals(FieldAt(after, f), Get(u.fields, f))
    {
      PutField(s, u, f);
    }
    StampIsExact(after, u);
    CoercedNumbers(u.stamp);
    hide CoerceVersion;
  }

  lemma CoercedNumbers(st: Stamp)
    ensures st.version >= 1 ==> CoerceVersion(Num(st.version as real)) == st.version
    ensures CoerceVersion(Num(st.nonce as real)) == if st.nonce < 1 then 1 else st.nonce
  {
  }

  lemma StampIsExact(s: Option<Stored>, u: Upsert)
    requires WellFormed(u) && Holds(s, u)
    ensures u.stamp.version >= 1 && IsEntry(s)
    ensures Get(s.value.fields, "version") == Num(u.stamp.version as real) && Get(s.value.fields, "versionNonce") == Num(u.stamp.nonce as real)
  {
    InheritedNames();
    hide INHERITED, JsonForm;
    assert Decides(u, "version") && Decides(u, "versionNonce");
    assert FieldEquals(FieldAt(s, "version"), Get(u.fields, "version"));
    assert FieldEquals(FieldAt(s, "versionNonce"), Get(u.fields, "versionNonce"));
  }

  /** `k` is the upsert that a batch leaves in place: no other outranks it, and ties fall as arbitration does. */
  predicate Wins(c: Option<Stamp>, us: seq<Upsert>, k: nat) {
    && k < |us|
    && Supersedes(c, us[k].stamp)
    && forall j :: 0 <= j < |us| ==> !Outranks(us[j].stamp, us[k].stamp) && (Tied(us[j].stamp, us[k].stamp) ==> Prevails(us, k, j))
  }

  /** Among ties the first prevails, but with nonces below one the last. */
  predicate Prevails(us: seq<Upsert>, k: nat, j: nat)
    requires k < |us|
  {
    if us[k].stamp.nonce >= 1 then k <= j else j <= k
  }

  function CoercedStamp(st: Stamp): Stamp {
    Stamp(st.version, if st.nonce < 1 then 1 else st.nonce)
  }

  lemma FirstWins(c: Option<Stamp>, us: seq<Upsert>, u: Upsert)
    requires c.Some? ==> c.value.nonce >= 1
    requires !AnySupersedes(c, us) && Supersedes(c, u.stamp)
    ensures Wins(c, us + [u], |us|)
  {
    var all := us + [u];
    forall j | 0 <= j < |all|
      ensures !Outranks(all[j].stamp, u.stamp) && (Tied(all[j].stamp, u.stamp) ==> Prevails(all, |us|, j))
    {
      assert j < |us| ==> all[j] in us;
    }
  }

  lemma LaterWins(c: Option<Stamp>, us: seq<Upsert>, k: nat, u: Upsert)
    requires c.Some? ==> c.value.nonce >= 1
    requires Wins(c, us, k) && Supersedes(Some(CoercedStamp(us[k].stamp)), u.stamp)
    ensures Wins(c, us + [u], |us|)
  {
    var all := us + [u];
    assert Supersedes(c, u.stamp);
    forall j | 0 <= j < |all|
      ensures !Outranks(all[j].stamp, u.stamp) && (Tied(all[j].stamp, u.stamp) ==> Prevails(all, |us|, j))
    {
      assert j < |us| ==> all[j] == us[j] && !Outranks(us[j].stamp, us[k].stamp);
    }
  }

  lemma StillWins(c: Option<Stamp>, us: seq<Upsert>, k: nat, u: Upsert)
    requires Wins(c, us, k) && !Supersedes(Some(CoercedStamp(us[k].stamp)), u.stamp)
    ensures Wins(c, us + [u], k)
  {
    var all := us + [u];
    forall j | 0 <= j < |all|
      ensures !Outranks(all[j].stamp, all[k].stamp) && (Tied(all[j].stamp, all[k].stamp) ==> Prevails(all, k, j))
    {
      assert j < |us| ==> all[j] == us[j] && !Outranks(us[j].stamp, us[k].stamp) && (Tied(us[j].stamp, us[k].stamp) ==> Prevails(us, k, j));
    }
  }

  predicate AnySupersedes(c: Option<Stamp>, us: seq<Upsert>) {
    exists u :: u in us && Supersedes(c, u.stamp)
  }

  lemma AnySnoc(c: Option<Stamp>, us: seq<Upsert>, u: Upsert)
    ensures AnySupersedes(c, us + [u]) <==> AnySupersedes(c, us) || Supersedes(c, u.stamp)
  {
    hide Supersedes;
    assert forall v :: v in us + [u] <==> v in us || v == u;
  }

  /** What a batch leaves under an id. */
  ghost predicate Settled(s: Option<Stored>, us: seq<Upsert>, k: nat) {
    if !AnySupersedes(CasOf(s), us) then UpsertsSlot(s, us) == s
    else
      && Wins(CasOf(s), us, k)
      && Holds(UpsertsSlot(s, us), us[k])
      && CasOf(UpsertsSlot(s, us)) == Some(CoercedStamp(us[k].stamp))
  }

  lemma WinsInside(c: Option<Stamp>, us: seq<Upsert>, k: nat, u: Upsert)
    requires Wins(c, us, k)
    ensures k < |us| && (us + [u])[k] == us[k]
  {
  }

  lemma SettledStep(s: Option<Stored>, us: seq<Upsert>, k: nat, u: Upsert) returns (k': nat)
    requires WellFormed(u) && Settled(s, us, k)
    ensures Settled(s, us + [u], k')
  {
    var mid := UpsertsSlot(s, us);
    Snoc(map[], us, u, u.id, s);
    PutHolds(mid, u);
    AnySnoc(CasOf(s), us, u);
    k' := k;
    hide Put, WellFormed, CasOf, Holds, UpsertsSlot, Wins, Supersedes, AnySupersedes, Upserts, UpsertOne, ForId;
    if Supersedes(CasOf(mid), u.stamp) {
      k' := |us|;
      if AnySupersedes(CasOf(s), us) {
        LaterWins(CasOf(s), us, k, u);
        Overtakes(CasOf(s), us, k, u);
      } else {
        FirstWins(CasOf(s), us, u);
      }
    } else if AnySupersedes(CasOf(s), us) {
      StillWins(CasOf(s), us, k, u);
      WinsInside(CasOf(s), us, k, u);
    }
  }

  lemma Overtakes(c: Option<Stamp>, us: seq<Upsert>, k: nat, u: Upsert)
    requires c.Some? ==> c.value.nonce >= 1
    requires Wins(c, us, k) && Supersedes(Some(CoercedStamp(us[k].stamp)), u.stamp)
    ensures Supersedes(c, u.stamp)
  {
  }

  /**
   * After a batch, an id holds its compare-and-set maximum: the old value when no upsert
   * supersedes it, and otherwise, in all fields it decides, an upsert that none outranks.
   */
  lemma {:induction false} HoldsTheMaximum(s: Option<Stored>, us: seq<Upsert>) returns (k: nat)
    requires forall u :: u in us ==> WellFormed(u)
    ensures Settled(s, us, k)
  {
    k := 0;
    if us != [] {
      var front, last := us[..|us| - 1], us[|us| - 1];
      assert last in us && us == front + [last];
      assert forall u :: u in front ==> u in us;
      k := HoldsTheMaximum(s, front);
      hide Settled, WellFormed;
      k := SettledStep(s, front, k, last);
    }
  }

  // ----- one field of a batch -----

  /** The last that was written under a field: by an upsert that got through and decides it, or before the batch. */
  function LastWritten(s: Option<Stored>, us: seq<Upsert>, f: string): Val {
    if us == [] then FieldAt(s, f)
    else
      var front, last := us[..|us| - 1], us[|us| - 1];
      if Supersedes(CasOf(UpsertsSlot(s, front)), last.stamp) && Decides(last, f) then Get(last.fields, f) else LastWritten(s, front, f)
  }

  lemma {:induction false} FieldIsLastWritten(s: Option<Stored>, us: seq<Upsert>, f: string)
    requires forall u :: u in us ==> WellFormed(u)
    ensures FieldEquals(FieldAt(UpsertsSlot(s, us), f), LastWritten(s, us, f))
  {
    hide FieldEquals, FieldAt, Supersedes, CasOf, Put, WellFormed, Decides;
    if us == [] {
      FieldEqualsLaws(FieldAt(s, f), FieldAt(s, f), FieldAt(s, f));
    } else {
      var front, last := us[..|us| - 1], us[|us| - 1];
      assert last in us && forall u :: u in front ==> u in us;
      FieldIsLastWritten(s, front, f);
      PutField(UpsertsSlot(s, front), last, f);
      FieldEqualsLaws(FieldAt(UpsertsSlot(s, us), f), FieldAt(UpsertsSlot(s, front), f), LastWritten(s, front, f));
    }
  }

  /**
   * The winner of a batch is all that an id holds exactly when nothing was written last under an
   * inherited name that the winner lacks.
   */
  lemma MaximumIsExactIff(s: Option<Stored>, us: seq<Upsert>, k: nat)
    requires forall u :: u in us ==> WellFormed(u)
    requires Settled(s, us, k) && AnySupersedes(CasOf(s), us)
    ensures k < |us| && IsEntry(UpsertsSlot(s, us))
    ensures Same(UpsertsSlot(s, us).value.fields, us[k].fields) <==>
            forall f :: f in INHERITED && f !in us[k].fields ==> LastWritten(s, us, f) == Undefined
  {
    var after, u := UpsertsSlot(s, us), us[k];
    hide FieldEquals, Wins, LastWritten, UpsertsSlot, WellFormed, INHERITED, AnySupersedes;
    forall f
      ensures Decides(u, f) ==> FieldEquals(Get(after.value.fields, f), Get(u.fields, f))
      ensures !Decides(u, f) ==> (FieldEquals(Get(after.value.fields, f), Get(u.fields, f)) <==> LastWritten(s, us, f) == Undefined)
    {
      FieldIsLastWritten(s, us, f);
      FieldEqualsLaws(FieldAt(after, f), LastWritten(s, us, f), Undefined);
      FieldEqualsLaws(LastWritten(s, us, f), FieldAt(after, f), Undefined);
    }
    assert forall f :: !Decides(u, f) <==> f in INHERITED && f !in u.fields;
  }

  /** An upsert that gets through supersedes what the id held before the batch. */
  lemma AcceptedSupersedes(s: Option<Stored>, us: seq<Upsert>, u: Upsert)
    requires (forall v :: v in us ==> WellFormed(v)) && Supersedes(CasOf(UpsertsSlot(s, us)), u.stamp)
    ensures Supersedes(CasOf(s), u.stamp)
  {
    var k := HoldsTheMaximum(s, us);
    hide Holds, WellFormed, UpsertsSlot, CasOf;
    if AnySupersedes(CasOf(s), us) {
      Overtakes(CasOf(s), us, k, u);
    }
  }

  lemma {:induction false} WrittenBySome(s: Option<Stored>, us: seq<Upsert>, f: string)
    requires forall u :: u in us ==> WellFormed(u)
    ensures LastWritten(s, us, f) == FieldAt(s, f)
         || exists u :: u in us && Supersedes(CasOf(s), u.stamp) && Decides(u, f) && LastWritten(s, us, f) == Get(u.fields, f)
  {
    hide Supersedes, CasOf, WellFormed, Decides, UpsertsSlot, FieldAt;
    if us != [] {
      var front, last := us[..|us| - 1], us[|us| - 1];
      assert last in us && forall u :: u in front ==> u in us;
      WrittenBySome(s, front, f);
      if Supersedes(CasOf(UpsertsSlot(s, front)), last.stamp) && Decides(last, f) {
        AcceptedSupersedes(s, front, last);
      }
    }
  }

  /** An upsert that supersedes the live value and that no other of the batch outranks. */
  ghost predicate Top(c: Option<Stamp>, us: seq<Upsert>, u: Upsert) {
    u in us && Supersedes(c, u.stamp) && forall v :: v in us ==> !Outranks(v.stamp, u.stamp)
  }

  lemma WinnerIsTop(c: Option<Stamp>, us: seq<Upsert>, k: nat)
    requires Wins(c, us, k)
    ensures Top(c, us, us[k])
  {
  }

  lemma TopsAreTied(c: Option<Stamp>, us: seq<Upsert>, t: Upsert, u: Upsert)
    requires Top(c, us, t) && Top(c, us, u)
    ensures Tied(t.stamp, u.stamp) && CoercedStamp(t.stamp) == CoercedStamp(u.stamp)
  {
  }

  /** What still gets through after a top upsert is another top, and only below nonce one. */
  lemma AfterTop(c: Option<Stamp>, us: seq<Upsert>, t: Upsert, u: Upsert)
    requires c.Some? ==> c.value.nonce >= 1
    requires Top(c, us, t) && u in us && Supersedes(Some(CoercedStamp(t.stamp)), u.stamp)
    ensures t.stamp.nonce < 1 && Top(c, us, u)
  {
    assert !Outranks(u.stamp, t.stamp);
    forall v | v in us
      ensures !Outranks(v.stamp, u.stamp)
    {
      assert !Outranks(v.stamp, t.stamp);
    }
  }

  /** Below nonce one every top upsert gets through, whatever came before. */
  lemma LowTopGetsThrough(c: Option<Stamp>, us: seq<Upsert>, t: Upsert, w: Upsert)
    requires Top(c, us, t) && t.stamp.nonce < 1 && w in us
    ensures Supersedes(Some(CoercedStamp(w.stamp)), t.stamp)
  {
    assert !Outranks(w.stamp, t.stamp);
  }

  lemma ConcatUpserts(s: Option<Stored>, us: seq<Upsert>, vs: seq<Upsert>)
    ensures UpsertsSlot(s, us + vs) == UpsertsSlot(UpsertsSlot(s, us), vs)
  {
    hide UpsertSlot;
    if vs == [] {
      assert us + vs == us;
    } else {
      assert (us + vs)[..|us + vs| - 1] == us + vs[..|vs| - 1];
      ConcatUpserts(s, us, vs[..|vs| - 1]);
    }
  }

  /** Once a top upsert is in place, a field that no later top decides keeps what it holds. */
  lemma {:induction false} QuietAfterTop(cur: Option<Stored>, c: Option<Stamp>, us: seq<Upsert>, t: Upsert, rest: seq<Upsert>, f: string)
    requires (forall v :: v in us ==> WellFormed(v)) && (c.Some? ==> c.value.nonce >= 1)
    requires Top(c, us, t) && CasOf(cur) == Some(CoercedStamp(t.stamp)) && forall v :: v in rest ==> v in us
    requires t.stamp.nonce < 1 ==> forall v :: Top(c, us, v) ==> !Decides(v, f)
    ensures CasOf(UpsertsSlot(cur, rest)) == CasOf(cur)
    ensures FieldEquals(FieldAt(UpsertsSlot(cur, rest), f), FieldAt(cur, f))
  {
    hide FieldEquals, FieldAt, Supersedes, CasOf, Put, WellFormed, Decides, Top;
    if rest == [] {
      FieldEqualsLaws(FieldAt(cur, f), FieldAt(cur, f), FieldAt(cur, f));
    } else {
      var front, last := rest[..|rest| - 1], rest[|rest| - 1];
      assert last in rest && forall v :: v in front ==> v in rest;
      QuietAfterTop(cur, c, us, t, front, f);
      var mid := UpsertsSlot(cur, front);
      if Supersedes(CasOf(mid), last.stamp) {
        AfterTop(c, us, t, last);
        TopsAreTied(c, us, t, last);
        PutHolds(mid, last);
        PutField(mid, last, f);
        FieldEqualsLaws(FieldAt(UpsertsSlot(cur, rest), f), FieldAt(mid, f), FieldAt(cur, f));
      }
    }
  }

  // ----- replays -----

  /** Both absent, or both fields maps that agree up to field equality, or the same value. */
  ghost predicate SameSlot(a: Option<Stored>, b: Option<Stored>) {
    a == b || (a.Some? && b.Some? && a.value.YMap? && b.value.YMap? && Same(a.value.fields, b.value.fields))
  }

  lemma SameSlotFields(a: Option<Stored>, b: Option<Stored>, f: string)
    requires SameSlot(a, b)
    ensures FieldEquals(FieldAt(a, f), FieldAt(b, f))
  {
    FieldEqualsLaws(FieldAt(a, f), FieldAt(a, f), FieldAt(a, f));
  }

  lemma SettledFacts(s: Option<Stored>, us: seq<Upsert>, k: nat)
    requires Settled(s, us, k) && AnySupersedes(CasOf(s), us)
    ensures Wins(CasOf(s), us, k) && Holds(UpsertsSlot(s, us), us[k]) && IsEntry(UpsertsSlot(s, us))
    ensures CasOf(UpsertsSlot(s, us)) == Some(CoercedStamp(us[k].stamp)) && Top(CasOf(s), us, us[k])
  {
    WinnerIsTop(CasOf(s), us, k);
    hide Wins, Supersedes, UpsertsSlot, CasOf, Top, FieldEquals;
  }

  /** The last top upsert of `us` that decides the field; `all` is the whole batch. */
  ghost function LastTop(c: Option<Stamp>, all: seq<Upsert>, us: seq<Upsert>, f: string): Option<Upsert> {
    if us == [] then None
    else if Top(c, all, us[|us| - 1]) && Decides(us[|us| - 1], f) then Some(us[|us| - 1])
    else LastTop(c, all, us[..|us| - 1], f)
  }

  lemma {:induction false} LastTopIs(c: Option<Stamp>, all: seq<Upsert>, us: seq<Upsert>, f: string)
    ensures LastTop(c, all, us, f).Some? <==> exists t :: t in us && Top(c, all, t) && Decides(t, f)
    ensures LastTop(c, all, us, f).Some? ==> var t := LastTop(c, all, us, f).value; t in us && Top(c, all, t) && Decides(t, f)
  {
    hide Top, Decides;
    if us != [] {
      var front, last := us[..|us| - 1], us[|us| - 1];
      assert forall t :: t in us <==> t in front || t == last;
      LastTopIs(c, all, front, f);
    }
  }

  /** Whatever state the upserts meet, below nonce one the last top that decides a field writes it last. */
  lemma {:induction false} LowTopsWriteLast(s: Option<Stored>, all: seq<Upsert>, us: seq<Upsert>, low: Upsert, f: string)
    requires (forall v :: v in all ==> WellFormed(v)) && (forall v :: v in us ==> v in all)
    requires Top(CasOf(s), all, low) && low.stamp.nonce < 1
    ensures LastTop(CasOf(s), all, us, f).Some? ==> LastWritten(s, us, f) == Get(LastTop(CasOf(s), all, us, f).value.fields, f)
  {
    var c := CasOf(s);
    hide FieldAt, Supersedes, CasOf, WellFormed, Decides, Top, UpsertsSlot;
    if us != [] {
      var front, last := us[..|us| - 1], us[|us| - 1];
      assert last in us && forall v :: v in front ==> v in us;
      LowTopsWriteLast(s, all, front, low, f);
      if Top(c, all, last) {
        TopsAreTied(c, all, low, last);
        LowGetsThroughPrefix(s, all, front, last);
      } else if LastTop(c, all, front, f).Some? {
        LastTopIs(c, all, front, f);
        RejectedAfterTop(s, all, front, LastTop(c, all, front, f).value, last);
      }
    }
  }

  lemma LowGetsThroughPrefix(s: Option<Stored>, all: seq<Upsert>, us: seq<Upsert>, t: Upsert)
    requires (forall v :: v in all ==> WellFormed(v)) && (forall v :: v in us ==> v in all)
    requires Top(CasOf(s), all, t) && t.stamp.nonce < 1
    ensures Supersedes(CasOf(UpsertsSlot(s, us)), t.stamp)
  {
    var k := HoldsTheMaximum(s, us);
    if AnySupersedes(CasOf(s), us) {
      SettledFacts(s, us, k);
      LowTopGetsThrough(CasOf(s), all, t, us[k]);
    }
    hide Wins, Holds, WellFormed, UpsertsSlot, CasOf, Supersedes;
  }

  lemma RejectedAfterTop(s: Option<Stored>, all: seq<Upsert>, us: seq<Upsert>, t: Upsert, u: Upsert)
    requires (forall v :: v in all ==> WellFormed(v)) && (forall v :: v in us ==> v in all)
    requires Top(CasOf(s), all, t) && t in us && u in all && !Top(CasOf(s), all, u)
    ensures !Supersedes(CasOf(UpsertsSlot(s, us)), u.stamp)
  {
    var c := CasOf(s);
    var k := HoldsTheMaximum(s, us);
    assert AnySupersedes(c, us);
    SettledFacts(s, us, k);
    TopAmong(c, all, us, t, us[k]);
    hide Wins, Holds, WellFormed, UpsertsSlot, CasOf, Supersedes, Top;
    if Supersedes(Some(CoercedStamp(us[k].stamp)), u.stamp) {
      AfterTop(c, all, us[k], u);
    }
  }

  /** A top of a part that has a top of the whole is a top of the whole. */
  lemma TopAmong(c: Option<Stamp>, all: seq<Upsert>, us: seq<Upsert>, t: Upsert, w: Upsert)
    requires Top(c, all, t) && t in us && (forall v :: v in us ==> v in all) && Top(c, us, w)
    ensures Top(c, all, w)
  {
    assert !Outranks(t.stamp, w.stamp);
    forall v | v in all
      ensures !Outranks(v.stamp, w.stamp)
    {
      assert !Outranks(v.stamp, t.stamp);
    }
  }

  /** Against what a batch left, its upserts that get through again are its tops, below nonce one. */
  lemma TopsAgain(c: Option<Stamp>, us: seq<Upsert>, t: Upsert, u: Upsert)
    requires c.Some? ==> c.value.nonce >= 1
    requires Top(c, us, t) && t.stamp.nonce < 1
    ensures Top(Some(CoercedStamp(t.stamp)), us, u) <==> Top(c, us, u)
  {
    if u in us {
      if Supersedes(Some(CoercedStamp(t.stamp)), u.stamp) {
        AfterTop(c, us, t, u);
      }
      if Top(c, us, u) {
        TopsAreTied(c, us, t, u);
        LowTopGetsThrough(c, us, u, t);
      }
    }
  }

  lemma {:induction false} LastTopAgain(c: Option<Stamp>, all: seq<Upsert>, us: seq<Upsert>, t: Upsert, f: string)
    requires (c.Some? ==> c.value.nonce >= 1) && Top(c, all, t) && t.stamp.nonce < 1
    ensures LastTop(Some(CoercedStamp(t.stamp)), all, us, f) == LastTop(c, all, us, f)
  {
    hide Top, Decides, CoercedStamp;
    if us != [] {
      TopsAgain(c, all, t, us[|us| - 1]);
      LastTopAgain(c, all, us[..|us| - 1], t, f);
    }
  }

  lemma ReplayField(s: Option<Stored>, us: seq<Upsert>, k: nat, f: string)
    requires forall u :: u in us ==> WellFormed(u)
    requires Settled(s, us, k) && AnySupersedes(CasOf(s), us) && us[k].stamp.nonce < 1
    ensures FieldEquals(FieldAt(UpsertsSlot(UpsertsSlot(s, us), us), f), FieldAt(UpsertsSlot(s, us), f))
  {
    var c, after := CasOf(s), UpsertsSlot(s, us);
    SettledFacts(s, us, k);
    hide FieldEquals, FieldAt, Supersedes, CasOf, WellFormed, Decides, Top, UpsertsSlot, LastWritten, LastTop, Settled, Wins, Holds, AnySupersedes, CoercedStamp;
    LastTopIs(c, us, us, f);
    if LastTop(c, us, us, f).Some? {
      var v := Get(LastTop(c, us, us, f).value.fields, f);
      LowTopsWriteLast(s, us, us, us[k], f);
      LastTopAgain(c, us, us, us[k], f);
      TopsAgain(c, us, us[k], us[k]);
      LowTopsWriteLast(after, us, us, us[k], f);
      FieldIsLastWritten(s, us, f);
      FieldIsLastWritten(after, us, f);
      FieldEqualsLaws(FieldAt(after, f), v, v);
      FieldEqualsLaws(FieldAt(UpsertsSlot(after, us), f), v, FieldAt(after, f));
    } else {
      TopsInBatch(c, us);
      QuietAfterTop(after, c, us, us[k], us, f);
    }
  }

  lemma TopsInBatch(c: Option<Stamp>, us: seq<Upsert>)
    ensures forall v :: Top(c, us, v) ==> v in us
  {
  }

  lemma ReplaySlot(s: Option<Stored>, us: seq<Upsert>)
    requires forall u :: u in us ==> WellFormed(u)
    ensures SameSlot(UpsertsSlot(UpsertsSlot(s, us), us), UpsertsSlot(s, us))
  {
    var after := UpsertsSlot(s, us);
    var k := HoldsTheMaximum(s, us);
    var m := HoldsTheMaximum(after, us);
    hide FieldEquals, UpsertsSlot, CasOf, WellFormed, Wins, Holds, Supersedes, FieldAt;
    if AnySupersedes(CasOf(after), us) {
      assert AnySupersedes(CasOf(s), us);
      SettledFacts(s, us, k);
      SettledFacts(after, us, m);
      AfterTop(CasOf(s), us, us[k], us[m]);
      forall f
        ensures FieldEquals(FieldAt(UpsertsSlot(after, us), f), FieldAt(after, f))
      {
        ReplayField(s, us, k, f);
      }
      SameIf(UpsertsSlot(after, us), after);
    }
  }

  lemma SameIf(a: Option<Stored>, b: Option<Stored>)
    requires IsEntry(a) && IsEntry(b) && forall f :: FieldEquals(FieldAt(a, f), FieldAt(b, f))
    ensures SameSlot(a, b)
  {
    hide FieldEquals;
    forall f
      ensures FieldEquals(Get(a.value.fields, f), Get(b.value.fields, f))
    {
      assert FieldEquals(FieldAt(a, f), FieldAt(b, f));
    }
  }

  /** Replaying a batch changes no field of any element. */
  lemma ReplayIsNoOp(els: map<string, Stored>, us: seq<Upsert>, id: string)
    requires forall u :: u in us ==> WellFormed(u)
    ensures SameSlot(Slot(Upserts(Upserts(els, us), us), id), Slot(Upserts(els, us), id))
  {
    hide *;
    SlotOfUpserts(els, us, id);
    SlotOfUpserts(Upserts(els, us), us, id);
    ForIdMembers(us, id);
    ReplaySlot(Slot(els, id), ForId(us, id));
  }

  // ----- the order of a batch -----

  /** Below nonce one the last of the tied top upserts stays, otherwise the first. */
  ghost predicate LastPrevails(c: Option<Stamp>, us: seq<Upsert>) {
    exists t :: Top(c, us, t) && t.stamp.nonce < 1
  }

  /** In every order a top upsert has the last word on the field. */
  ghost predicate TopsSettle(c: Option<Stamp>, us: seq<Upsert>, f: string) {
    if LastPrevails(c, us) then exists t :: Top(c, us, t) && Decides(t, f)
    else forall t :: Top(c, us, t) ==> Decides(t, f)
  }

  /**
   * The field does not depend on the order: the top upserts agree on it, and where they may leave
   * it alone, every upsert that could get through writes what was there.
   */
  ghost predicate FieldAgrees(s: Option<Stored>, us: seq<Upsert>, f: string) {
    if TopsSettle(CasOf(s), us, f) then
      forall t, u :: Top(CasOf(s), us, t) && Top(CasOf(s), us, u) && Decides(t, f) && Decides(u, f) ==> FieldEquals(Get(t.fields, f), Get(u.fields, f))
    else
      forall u :: u in us && Supersedes(CasOf(s), u.stamp) && Decides(u, f) ==> FieldEquals(Get(u.fields, f), FieldAt(s, f))
  }

  ghost predicate Permuted(us: seq<Upsert>, vs: seq<Upsert>) {
    multiset(us) == multiset(vs)
  }

  lemma PermutedMembers(us: seq<Upsert>, vs: seq<Upsert>)
    requires Permuted(us, vs)
    ensures forall u :: u in us <==> u in vs
  {
    assert forall u :: u in us <==> u in multiset(us);
    assert forall u :: u in vs <==> u in multiset(vs);
  }

  lemma TopOfPermuted(c: Option<Stamp>, us: seq<Upsert>, vs: seq<Upsert>, u: Upsert)
    requires Top(c, us, u) && forall v :: v in us <==> v in vs
    ensures Top(c, vs, u)
  {
  }

  /** Where the top upserts settle a field, one of them wrote it last. */
  lemma SettledByTop(s: Option<Stored>, us: seq<Upsert>, f: string) returns (t: Upsert)
    requires (forall u :: u in us ==> WellFormed(u)) && AnySupersedes(CasOf(s), us) && TopsSettle(CasOf(s), us, f)
    ensures Top(CasOf(s), us, t) && Decides(t, f) && FieldEquals(FieldAt(UpsertsSlot(s, us), f), Get(t.fields, f))
  {
    var c := CasOf(s);
    var k := HoldsTheMaximum(s, us);
    SettledFacts(s, us, k);
    t := us[k];
    hide FieldEquals, FieldAt, Supersedes, CasOf, WellFormed, Decides, Top, UpsertsSlot, LastTop, LastWritten, Settled, Wins, AnySupersedes;
    if LastPrevails(c, us) {
      var low, d :| Top(c, us, low) && low.stamp.nonce < 1 && Top(c, us, d) && Decides(d, f);
      TopsInBatch(c, us);
      LastTopIs(c, us, us, f);
      t := LastTop(c, us, us, f).value;
      LowTopsWriteLast(s, us, us, low, f);
      FieldIsLastWritten(s, us, f);
    }
  }

  /** One field comes out alike in any two orders. */
  lemma FieldInAnyOrder(s: Option<Stored>, us: seq<Upsert>, vs: seq<Upsert>, f: string)
    requires (forall u :: u in us ==> WellFormed(u)) && AnySupersedes(CasOf(s), us)
    requires (forall u :: u in us <==> u in vs) && FieldAgrees(s, us, f)
    ensures FieldEquals(FieldAt(UpsertsSlot(s, us), f), FieldAt(UpsertsSlot(s, vs), f))
  {
    var c, a, b := CasOf(s), FieldAt(UpsertsSlot(s, us), f), FieldAt(UpsertsSlot(s, vs), f);
    hide FieldEquals, FieldAt, Supersedes, CasOf, WellFormed, Decides, UpsertsSlot, LastWritten;
    assert forall t :: Top(c, us, t) <==> Top(c, vs, t);
    hide Top;
    if TopsSettle(c, us, f) {
      var t := SettledByTop(s, us, f);
      var u := SettledByTop(s, vs, f);
      FieldEqualsLaws(a, Get(t.fields, f), Get(u.fields, f));
      FieldEqualsLaws(b, Get(u.fields, f), b);
      FieldEqualsLaws(a, Get(u.fields, f), b);
    } else {
      StaysAsItWas(s, us, f);
      StaysAsItWas(s, vs, f);
      FieldEqualsLaws(b, FieldAt(s, f), b);
      FieldEqualsLaws(a, FieldAt(s, f), b);
    }
  }

  lemma StaysAsItWas(s: Option<Stored>, us: seq<Upsert>, f: string)
    requires forall u :: u in us ==> WellFormed(u)
    requires forall u :: u in us && Supersedes(CasOf(s), u.stamp) && Decides(u, f) ==> FieldEquals(Get(u.fields, f), FieldAt(s, f))
    ensures FieldEquals(FieldAt(UpsertsSlot(s, us), f), FieldAt(s, f))
  {
    hide FieldEquals, FieldAt, Supersedes, CasOf, WellFormed, Decides, UpsertsSlot, LastWritten;
    FieldIsLastWritten(s, us, f);
    WrittenBySome(s, us, f);
    FieldEqualsLaws(FieldAt(UpsertsSlot(s, us), f), LastWritten(s, us, f), FieldAt(s, f));
  }

  lemma PermutedSlot(s: Option<Stored>, us: seq<Upsert>, vs: seq<Upsert>)
    requires forall u :: u in us ==> WellFormed(u)
    requires (forall u :: u in us <==> u in vs) && forall f :: FieldAgrees(s, us, f)
    ensures SameSlot(UpsertsSlot(s, us), UpsertsSlot(s, vs))
  {
    var k := HoldsTheMaximum(s, us);
    var m := HoldsTheMaximum(s, vs);
    hide FieldEquals, FieldAt, UpsertsSlot, CasOf, WellFormed, Wins, Holds, Supersedes, FieldAgrees;
    if AnySupersedes(CasOf(s), us) {
      assert AnySupersedes(CasOf(s), vs);
      SettledFacts(s, us, k);
      SettledFacts(s, vs, m);
      forall f
        ensures FieldEquals(FieldAt(UpsertsSlot(s, us), f), FieldAt(UpsertsSlot(s, vs), f))
      {
        FieldInAnyOrder(s, us, vs, f);
      }
      SameIf(UpsertsSlot(s, us), UpsertsSlot(s, vs));
    }
  }

  /** A top upsert wins when it comes last, if its nonce is below one, and when it comes first otherwise. */
  lemma TopWins(s: Option<Stored>, us: seq<Upsert>, u: Upsert, rest: seq<Upsert>)
    requires forall v :: v in us ==> WellFormed(v)
    requires Top(CasOf(s), us, u) && us == if u.stamp.nonce < 1 then rest + [u] else [u] + rest
    ensures Holds(UpsertsSlot(s, us), u)
  {
    var k := HoldsTheMaximum(s, us);
    hide Same, UpsertsSlot, CasOf, WellFormed, Holds;
    assert Supersedes(CasOf(s), u.stamp) && u in us;
    var i := if u.stamp.nonce < 1 then |us| - 1 else 0;
    assert us[i] == u && us[k] in us;
    assert !Outranks(us[i].stamp, us[k].stamp) && !Outranks(us[k].stamp, us[i].stamp);
    assert Prevails(us, k, i);
  }

  lemma MoveOut(us: seq<Upsert>, u: Upsert) returns (vs: seq<Upsert>, rest: seq<Upsert>)
    requires u in us
    ensures vs == if u.stamp.nonce < 1 then rest + [u] else [u] + rest
    ensures Permuted(vs, us)
  {
    var i :| 0 <= i < |us| && us[i] == u;
    rest := us[..i] + us[i + 1..];
    assert us == us[..i] + [u] + us[i + 1..];
    vs := if u.stamp.nonce < 1 then rest + [u] else [u] + rest;
  }

  lemma MoveFirst(us: seq<Upsert>, u: Upsert) returns (rest: seq<Upsert>)
    requires u in us
    ensures Permuted([u] + rest, us)
  {
    var i :| 0 <= i < |us| && us[i] == u;
    rest := us[..i] + us[i + 1..];
    assert us == us[..i] + [u] + us[i + 1..];
  }

  /** An order in which the given top upsert, which decides the field, has the last word on it. */
  lemma TopLast(s: Option<Stored>, us: seq<Upsert>, t: Upsert, f: string) returns (vs: seq<Upsert>)
    requires (forall u :: u in us ==> WellFormed(u)) && Top(CasOf(s), us, t) && Decides(t, f)
    ensures Permuted(vs, us) && FieldEquals(FieldAt(UpsertsSlot(s, vs), f), Get(t.fields, f))
  {
    var rest;
    vs, rest := MoveOut(us, t);
    PermutedMembers(vs, us);
    TopOfPermuted(CasOf(s), us, vs, t);
    TopWins(s, vs, t, rest);
    hide Top, UpsertsSlot, CasOf, WellFormed, FieldEquals, FieldAt, Decides;
  }

  lemma OneUpsert(s: Option<Stored>, u: Upsert)
    requires WellFormed(u) && Supersedes(CasOf(s), u.stamp)
    ensures UpsertsSlot(s, [u]) == Some(Put(s, u))
  {
    assert [u][..0] == [];
  }

  /** An order in which a top upsert comes first and leaves the field as it was. */
  lemma TopFirst(s: Option<Stored>, us: seq<Upsert>, t: Upsert, f: string) returns (vs: seq<Upsert>)
    requires (forall u :: u in us ==> WellFormed(u)) && Top(CasOf(s), us, t) && !Decides(t, f) && !TopsSettle(CasOf(s), us, f)
    ensures Permuted(vs, us) && FieldEquals(FieldAt(UpsertsSlot(s, vs), f), FieldAt(s, f))
  {
    var c := CasOf(s);
    var rest := MoveFirst(us, t);
    vs := [t] + rest;
    PermutedMembers(vs, us);
    var cur := Some(Put(s, t));
    hide UpsertsSlot, WellFormed, FieldEquals, FieldAt, Decides, Put, CasOf, Permuted;
    OneUpsert(s, t);
    PutHolds(s, t);
    PutField(s, t, f);
    ConcatUpserts(s, [t], rest);
    assert forall v :: v in rest ==> v in vs;
    QuietAfterTop(cur, c, us, t, rest, f);
    FieldEqualsLaws(FieldAt(UpsertsSlot(s, vs), f), FieldAt(cur, f), FieldAt(s, f));
  }

  /** An order in which an upsert gets through before a top one that leaves the field to it. */
  lemma LeftBehind(s: Option<Stored>, us: seq<Upsert>, t: Upsert, u: Upsert, f: string) returns (vs: seq<Upsert>)
    requires (forall u :: u in us ==> WellFormed(u)) && Top(CasOf(s), us, t) && !Decides(t, f) && !TopsSettle(CasOf(s), us, f)
    requires u in us && Supersedes(CasOf(s), u.stamp) && Decides(u, f)
    ensures Permuted(vs, us) && FieldEquals(FieldAt(UpsertsSlot(s, vs), f), Get(u.fields, f))
  {
    var c := CasOf(s);
    var others := MoveFirst(us, u);
    PermutedMembers([u] + others, us);
    assert t in [u] + others && t != u;
    var rest := MoveFirst(others, t);
    PermutedMembers([t] + rest, others);
    vs := [u] + ([t] + rest);
    assert forall v :: v in rest ==> v in [t] + rest;
    assert forall v :: v in others ==> v in [u] + others;
    assert multiset(vs) == multiset([u]) + multiset([t] + rest);
    var first := Some(Put(s, u));
    hide UpsertsSlot, WellFormed, FieldEquals, FieldAt, Decides, Put, CasOf, Permuted;
    OneUpsert(s, u);
    PutHolds(s, u);
    PutField(s, u, f);
    ConcatUpserts(s, [u], [t] + rest);
    ConcatUpserts(first, [t], rest);
    var cur := ThenTop(first, c, us, u, t, f);
    QuietAfterTop(cur, c, us, t, rest, f);
    FieldEqualsLaws(FieldAt(cur, f), FieldAt(first, f), Get(u.fields, f));
    FieldEqualsLaws(FieldAt(UpsertsSlot(s, vs), f), FieldAt(cur, f), Get(u.fields, f));
  }

  /** The top upsert right after one that got through: in place of it or tied with it, the field stays. */
  lemma ThenTop(first: Option<Stored>, c: Option<Stamp>, us: seq<Upsert>, u: Upsert, t: Upsert, f: string) returns (cur: Option<Stored>)
    requires WellFormed(t) && Top(c, us, t) && !Decides(t, f) && !TopsSettle(c, us, f) && (c.Some? ==> c.value.nonce >= 1)
    requires u in us && Supersedes(c, u.stamp) && Decides(u, f) && CasOf(first) == Some(CoercedStamp(u.stamp))
    ensures cur == UpsertsSlot(first, [t]) && CasOf(cur) == Some(CoercedStamp(t.stamp))
    ensures FieldEquals(FieldAt(cur, f), FieldAt(first, f))
  {
    assert [t][..0] == [];
    cur := UpsertsSlot(first, [t]);
    hide FieldEquals, FieldAt, Decides, Put, CasOf, WellFormed;
    if Top(c, us, u) {
      TopsAreTied(c, us, t, u);
      assert t.stamp.nonce >= 1;
      FieldEqualsLaws(FieldAt(first, f), FieldAt(first, f), FieldAt(first, f));
    } else {
      TopOutranks(c, us, t, u);
      PutHolds(first, t);
      PutField(first, t, f);
    }
  }

  lemma TopOutranks(c: Option<Stamp>, us: seq<Upsert>, t: Upsert, u: Upsert)
    requires Top(c, us, t) && u in us && Supersedes(c, u.stamp) && !Top(c, us, u)
    ensures Supersedes(Some(CoercedStamp(u.stamp)), t.stamp)
  {
    var v :| v in us && Outranks(v.stamp, u.stamp);
    assert !Outranks(v.stamp, t.stamp) && !Outranks(u.stamp, t.stamp);
  }

  /** Two orders under which the field comes out differently. */
  lemma TwoOrders(s: Option<Stored>, us: seq<Upsert>, f: string) returns (vs: seq<Upsert>, ws: seq<Upsert>)
    requires (forall u :: u in us ==> WellFormed(u)) && !FieldAgrees(s, us, f)
    ensures Permuted(vs, us) && Permuted(ws, us)
    ensures !FieldEquals(FieldAt(UpsertsSlot(s, vs), f), FieldAt(UpsertsSlot(s, ws), f))
  {
    var c, x, y := CasOf(s), Undefined, Undefined;
    hide UpsertsSlot, WellFormed, FieldEquals, FieldAt, Decides, CasOf, Permuted, Top, Supersedes;
    if TopsSettle(c, us, f) {
      var t, u :| Top(c, us, t) && Top(c, us, u) && Decides(t, f) && Decides(u, f) && !FieldEquals(Get(t.fields, f), Get(u.fields, f));
      vs := TopLast(s, us, t, f);
      ws := TopLast(s, us, u, f);
      x, y := Get(t.fields, f), Get(u.fields, f);
    } else {
      var u :| u in us && Supersedes(c, u.stamp) && Decides(u, f) && !FieldEquals(Get(u.fields, f), FieldAt(s, f));
      var t := UndecidedTop(s, us, f, u);
      vs := LeftBehind(s, us, t, u, f);
      ws := TopFirst(s, us, t, f);
      x, y := Get(u.fields, f), FieldAt(s, f);
    }
    var a, b := FieldAt(UpsertsSlot(s, vs), f), FieldAt(UpsertsSlot(s, ws), f);
    FieldEqualsLaws(a, x, x);
    FieldEqualsLaws(x, a, b);
    FieldEqualsLaws(x, b, y);
  }

  lemma UndecidedTop(s: Option<Stored>, us: seq<Upsert>, f: string, u: Upsert) returns (t: Upsert)
    requires (forall u :: u in us ==> WellFormed(u)) && !TopsSettle(CasOf(s), us, f)
    requires u in us && Supersedes(CasOf(s), u.stamp)
    ensures Top(CasOf(s), us, t) && !Decides(t, f)
  {
    var k := HoldsTheMaximum(s, us);
    assert AnySupersedes(CasOf(s), us);
    SettledFacts(s, us, k);
    hide UpsertsSlot, WellFormed, Decides, CasOf, Top, Supersedes, Settled;
    t := us[k];
    if !LastPrevails(CasOf(s), us) {
      t :| Top(CasOf(s), us, t) && !Decides(t, f);
    }
  }

  lemma DistinctOrders(s: Option<Stored>, us: seq<Upsert>, f: string) returns (vs: seq<Upsert>)
    requires (forall u :: u in us ==> WellFormed(u)) && !FieldAgrees(s, us, f)
    ensures Permuted(vs, us) && !SameSlot(UpsertsSlot(s, vs), UpsertsSlot(s, us))
  {
    var ws;
    vs, ws := TwoOrders(s, us, f);
    var a, b, z := UpsertsSlot(s, vs), UpsertsSlot(s, ws), UpsertsSlot(s, us);
    hide UpsertsSlot, WellFormed, FieldEquals, FieldAt, FieldAgrees, Permuted;
    if SameSlot(a, z) {
      if SameSlot(b, z) {
        SameSlotFields(a, z, f);
        SameSlotFields(b, z, f);
        FieldEqualsLaws(FieldAt(b, f), FieldAt(z, f), FieldAt(z, f));
        FieldEqualsLaws(FieldAt(a, f), FieldAt(z, f), FieldAt(b, f));
      }
      vs := ws;
    }
  }

  lemma LastApart<T>(us: seq<T>, vs: seq<T>)
    requires vs != []
    ensures vs == vs[..|vs| - 1] + [vs[|vs| - 1]]
    ensures us + vs == (us + vs[..|vs| - 1]) + [vs[|vs| - 1]]
  {
  }

  lemma {:induction false} ForIdConcat(us: seq<Upsert>, vs: seq<Upsert>, id: string)
    ensures ForId(us + vs, id) == ForId(us, id) + ForId(vs, id)
  {
    if vs == [] {
      assert us + vs == us;
    } else {
      hide *;
      var front, last := vs[..|vs| - 1], vs[|vs| - 1];
      ForIdConcat(us, front, id);
      LastApart(us, vs);
      Snoc(map[], us + front, last, id, None);
      Snoc(map[], front, last, id, None);
      LastApart(ForId(us, id), ForId(front, id) + [last]);
    }
  }

  lemma {:induction false} ForIdAll(us: seq<Upsert>, id: string)
    requires forall u :: u in us ==> u.id == id
    ensures ForId(us, id) == us
  {
    if us != [] {
      assert us == us[..|us| - 1] + [us[|us| - 1]];
      ForIdAll(us[..|us| - 1], id);
    }
  }

  /** The upserts of a batch for other ids. */
  function Others(us: seq<Upsert>, id: string): seq<Upsert> {
    if us == [] then []
    else
      var front := Others(us[..|us| - 1], id);
      if us[|us| - 1].id == id then front else front + [us[|us| - 1]]
  }

  lemma {:induction false} SplitById(us: seq<Upsert>, id: string)
    ensures multiset(us) == multiset(Others(us, id)) + multiset(ForId(us, id))
    ensures forall u :: u in Others(us, id) ==> u.id != id
  {
    if us != [] {
      assert us == us[..|us| - 1] + [us[|us| - 1]];
      SplitById(us[..|us| - 1], id);
    }
  }

  /**
   * The order of a batch is irrelevant to an id exactly when it is irrelevant to each field: the
   * top upserts agree where they settle it, and otherwise all that get through leave it alone.
   */
  lemma OrderIsIrrelevantIff(els: map<string, Stored>, us: seq<Upsert>, id: string)
    requires forall u :: u in us ==> WellFormed(u)
    ensures (forall f :: FieldAgrees(Slot(els, id), ForId(us, id), f)) <==>
            forall vs :: Permuted(vs, us) ==> SameSlot(Slot(Upserts(els, vs), id), Slot(Upserts(els, us), id))
  {
    var s, mine := Slot(els, id), ForId(us, id);
    ForIdMembers(us, id);
    SlotOfUpserts(els, us, id);
    hide Slot, ForId, Upserts, UpsertsSlot, SameSlot, Same, CasOf, WellFormed, Permuted, FieldAgrees;
    if forall f :: FieldAgrees(s, mine, f) {
      forall vs | Permuted(vs, us)
        ensures SameSlot(Slot(Upserts(els, vs), id), Slot(Upserts(els, us), id))
      {
        PermutedMembers(vs, us);
        ForIdMembers(vs, id);
        SlotOfUpserts(els, vs, id);
        PermutedSlot(s, mine, ForId(vs, id));
        SameSlotSymmetric(UpsertsSlot(s, mine), UpsertsSlot(s, ForId(vs, id)));
      }
    } else {
      var f :| !FieldAgrees(s, mine, f);
      var other := DistinctOrders(s, mine, f);
      var vs := Reordered(us, id, other);
      SlotOfUpserts(els, vs, id);
    }
  }

  lemma SameSlotSymmetric(a: Option<Stored>, b: Option<Stored>)
    ensures SameSlot(a, b) ==> SameSlot(b, a)
  {
    hide FieldEquals;
    if SameSlot(a, b) && a != b {
      forall f
        ensures FieldEquals(Get(b.value.fields, f), Get(a.value.fields, f))
      {
        FieldEqualsLaws(Get(a.value.fields, f), Get(b.value.fields, f), Undefined);
      }
    }
  }

  lemma Reordered(us: seq<Upsert>, id: string, mine: seq<Upsert>) returns (vs: seq<Upsert>)
    requires Permuted(mine, ForId(us, id))
    ensures Permuted(vs, us) && ForId(vs, id) == mine
  {
    SplitById(us, id);
    ForIdMembers(us, id);
    PermutedMembers(mine, ForId(us, id));
    vs := Others(us, id) + mine;
    ForIdConcat(Others(us, id), mine, id);
    ForIdAll(mine, id);
    NoneForId(Others(us, id), id);
    hide ForId, Others;
    assert [] + mine == mine;
  }

  /** No upsert that may get through brings a field under an inherited name that the top one lacks, unless as it was. */
  ghost predicate NoStrays(s: Option<Stored>, us: seq<Upsert>) {
    forall t, u, f :: Top(CasOf(s), us, t) && u in us && Supersedes(CasOf(s), u.stamp) && f in u.fields && !Decides(t, f) ==>
      FieldEquals(u.fields[f], FieldAt(s, f))
  }

  /**
   * With distinct stamps and nonces of at least one there is one top upsert per id, and a batch
   * converges in every order exactly when no other upsert leaves a stray field beside it.
   */
  lemma DistinctStampsConvergeIff(els: map<string, Stored>, us: seq<Upsert>, id: string)
    requires forall u :: u in us ==> WellFormed(u)
    requires forall u, v :: u in us && v in us && u.id == v.id && u.stamp == v.stamp ==> u == v
    requires forall u :: u in us ==> u.stamp.nonce >= 1
    ensures NoStrays(Slot(els, id), ForId(us, id)) <==>
            forall vs :: Permuted(vs, us) ==> SameSlot(Slot(Upserts(els, vs), id), Slot(Upserts(els, us), id))
  {
    OrderIsIrrelevantIff(els, us, id);
    ForIdMembers(us, id);
    var s, mine := Slot(els, id), ForId(us, id);
    hide Slot, ForId, Upserts, SameSlot, WellFormed, Permuted;
    OneTop(CasOf(s), mine);
    OneTopAgrees(s, mine);
  }

  lemma OneTop(c: Option<Stamp>, us: seq<Upsert>)
    requires forall u, v :: u in us && v in us && u.stamp == v.stamp ==> u == v
    requires forall u :: u in us ==> u.stamp.nonce >= 1
    ensures !LastPrevails(c, us) && forall t, u :: Top(c, us, t) && Top(c, us, u) ==> t == u
  {
    forall t, u | Top(c, us, t) && Top(c, us, u)
      ensures t == u
    {
      TopsAreTied(c, us, t, u);
    }
  }

  lemma OneTopAgrees(s: Option<Stored>, us: seq<Upsert>)
    requires !LastPrevails(CasOf(s), us) && forall t, u :: Top(CasOf(s), us, t) && Top(CasOf(s), us, u) ==> t == u
    ensures NoStrays(s, us) <==> forall f :: FieldAgrees(s, us, f)
  {
    var c := CasOf(s);
    hide CasOf, FieldAt, FieldEquals, Top, Supersedes, LastPrevails, INHERITED;
    if NoStrays(s, us) {
      forall f
        ensures FieldAgrees(s, us, f)
      {
        if TopsSettle(c, us, f) {
          forall t, u | Top(c, us, t) && Top(c, us, u)
            ensures FieldEquals(Get(t.fields, f), Get(u.fields, f))
          {
            FieldEqualsLaws(Get(t.fields, f), Get(t.fields, f), Undefined);
          }
        } else {
          var t :| Top(c, us, t) && !Decides(t, f);
        }
      }
    }
    if forall f :: FieldAgrees(s, us, f) {
      forall t, u, f | Top(c, us, t) && u in us && Supersedes(c, u.stamp) && f in u.fields && !Decides(t, f)
        ensures FieldEquals(u.fields[f], FieldAt(s, f))
      {
        assert FieldAgrees(s, us, f);
        assert !TopsSettle(c, us, f);
      }
    }
  }

  // ----- batches that do not converge -----

  /** What validation makes of a rectangle with a stamp, and perhaps a field named `toString`. */
  function Rectangle(st: Stamp, extra: map<string, Val>): Upsert {
    Upsert("e", st, map["id" := Str("e"), "type" := Str("rectangle"),
                        "version" := Num(st.version as real), "versionNonce" := Num(st.nonce as real)] + extra)
  }

  lemma RectangleNames()
    ensures RoleOf("toString") == PlainField && "rectangle" in ELEMENT_TYPES
    ensures {"id", "type", "version", "versionNonce", "toString"} !! RESERVED_KEYS
    ensures "id" != "type" && "toString" !in {"id", "type", "version", "versionNonce", "index"}
  {
    assert |"id"| == 2 && |"type"| == 4 && |"version"| == 7 && |"versionNonce"| == 12 && |"toString"| == 8 && |"index"| == 5;
    assert |"constructor"| == 11 && |"prototype"| == 9 && |"__proto__"| == 9;
    assert |"x"| == 1 && |"angle"| == 5 && |"width"| == 5 && |"height"| == 6 && |"strokeWidth"| == 11 && |"opacity"| == 7;
    assert |"isDeleted"| == 9 && |"boundElements"| == 13 && |"frameId"| == 7 && |"containerId"| == 11;
    assert "fontSize"[0] == 'f' && "toString"[0] == 't';
  }

  lemma RectangleFields(st: Stamp, extra: map<string, Val>)
    requires extra.Keys <= {"toString"}
    ensures var e := Rectangle(st, extra).fields;
            && e.Keys == {"id", "type", "version", "versionNonce"} + extra.Keys
            && e["id"] == Str("e") && e["type"] == Str("rectangle")
            && e["version"] == Num(st.version as real) && e["versionNonce"] == Num(st.nonce as real)
            && ("toString" in extra ==> e["toString"] == extra["toString"])
  {
    ApartNames();
    var base := map["id" := Str("e"), "type" := Str("rectangle"), "version" := Num(st.version as real), "versionNonce" := Num(st.nonce as real)];
    assert base.Keys == {"id", "type", "version", "versionNonce"};
    assert Rectangle(st, extra).fields == base + extra;
  }

  lemma ApartNames()
    ensures "id" != "type" && "id" != "version" && "id" != "versionNonce" && "id" != "toString"
    ensures "type" != "version" && "type" != "versionNonce" && "type" != "toString"
    ensures "version" != "versionNonce" && "version" != "toString" && "versionNonce" != "toString"
  {
    assert |"id"| == 2 && |"type"| == 4 && |"version"| == 7 && |"versionNonce"| == 12 && |"toString"| == 8;
  }

  /** Validation lets such an element through as it is. */
  lemma RectangleIsValid(st: Stamp, extra: map<string, Val>, valid: ValidIndex)
    requires st.version >= 1 && extra.Keys <= {"toString"}
    ensures var u := Rectangle(st, extra); WellFormed(u) && Normalize(u.fields, None, valid) == Some(u.fields)
    ensures Rectangle(st, extra).fields.Keys * INHERITED == extra.Keys
  {
    hide *;
    RectangleFields(st, extra);
    InheritedNames();
    RectangleIsWellFormed(st, extra);
    var e := Rectangle(st, extra).fields;
    RectangleRenders(e);
    CoercedNumbers(st);
    RectangleStays(e, st, valid);
  }

  lemma RectangleIsWellFormed(st: Stamp, extra: map<string, Val>)
    requires st.version >= 1 && extra.Keys <= {"toString"}
    ensures WellFormed(Rectangle(st, extra)) && Rectangle(st, extra).id == "e" && Rectangle(st, extra).stamp == st
  {
    RectangleFields(st, extra);
    RectangleNames();
    assert "__proto__" in RESERVED_KEYS;
  }

  lemma RectangleRenders(e: Entry)
    requires {"id", "type"} <= e.Keys <= {"id", "type", "version", "versionNonce", "toString"}
    requires e["id"] == Str("e") && e["type"] == Str("rectangle")
    ensures Renderable(e)
  {
    RectangleNames();
    hide RoleOf, ELEMENT_TYPES, RESERVED_KEYS;
  }

  lemma RectangleStays(e: Entry, st: Stamp, valid: ValidIndex)
    requires Renderable(e) && {"version", "versionNonce"} <= e.Keys <= {"id", "type", "version", "versionNonce", "toString"}
    requires e["version"] == Num(st.version as real) && e["versionNonce"] == Num(st.nonce as real)
    requires CoerceVersion(e["version"]) == st.version
    ensures Normalize(e, None, valid) == Some(e)
  {
    Roles();
    RectangleNames();
    hide Renderable, RoleOf, ELEMENT_TYPES, RESERVED_KEYS, NonceFor, CoerceVersion;
    assert !HasValidIndex(e, valid) && NormalizedKeys(e, valid) == e.Keys;
    var n := Normalize(e, None, valid).value;
    forall field | field in e
      ensures n[field] == e[field]
    {
    }
    assert n == e;
  }

  /**
   * Two valid elements with distinct stamps that do not converge: only the outranked one has a
   * field named `toString`, and it stays on the winner exactly when the winner comes last.
   */
  lemma StrayFieldDiverges(valid: ValidIndex)
    ensures var lesser, greater := Rectangle(Stamp(1, 1), map["toString" := Str("x")]), Rectangle(Stamp(2, 1), map[]);
            && WellFormed(lesser) && Normalize(lesser.fields, None, valid) == Some(lesser.fields)
            && WellFormed(greater) && Normalize(greater.fields, None, valid) == Some(greater.fields)
            && FieldAt(Slot(Upserts(map[], [lesser, greater]), "e"), "toString") == Str("x")
            && FieldAt(Slot(Upserts(map[], [greater, lesser]), "e"), "toString") == Undefined
  {
    var lesser, greater := Rectangle(Stamp(1, 1), map["toString" := Str("x")]), Rectangle(Stamp(2, 1), map[]);
    hide *;
    ToStringStrays();
    NothingHeld("toString");
    RectangleIsValid(Stamp(1, 1), map["toString" := Str("x")], valid);
    RectangleIsValid(Stamp(2, 1), map[], valid);
    RectangleIsWellFormed(Stamp(1, 1), map["toString" := Str("x")]);
    RectangleIsWellFormed(Stamp(2, 1), map[]);
    ForIdAll([lesser, greater], "e");
    ForIdAll([greater, lesser], "e");
    SlotOfUpserts(map[], [lesser, greater], "e");
    SlotOfUpserts(map[], [greater, lesser], "e");
    TwoUpserts(lesser, greater);
    FieldEqualsLaws(FieldAt(Slot(Upserts(map[], [greater, lesser]), "e"), "toString"), Undefined, Undefined);
    OnlyItself(FieldAt(Slot(Upserts(map[], [lesser, greater]), "e"), "toString"), "x");
  }

  lemma ToStringStrays()
    ensures Decides(Rectangle(Stamp(1, 1), map["toString" := Str("x")]), "toString")
    ensures Get(Rectangle(Stamp(1, 1), map["toString" := Str("x")]).fields, "toString") == Str("x")
    ensures !Decides(Rectangle(Stamp(2, 1), map[]), "toString")
  {
    RectangleFields(Stamp(1, 1), map["toString" := Str("x")]);
    RectangleFields(Stamp(2, 1), map[]);
    RectangleNames();
    InheritedNames();
    hide Rectangle, INHERITED, RoleOf, RESERVED_KEYS, ELEMENT_TYPES;
  }

  lemma OnlyItself(v: Val, s: string)
    ensures FieldEquals(v, Str(s)) ==> v == Str(s)
  {
  }

  /** On a new id: the later stamp last keeps the field it does not decide, the later stamp first never gets it. */
  lemma TwoUpserts(lesser: Upsert, greater: Upsert)
    requires WellFormed(lesser) && WellFormed(greater) && lesser.stamp == Stamp(1, 1) && greater.stamp == Stamp(2, 1)
    requires Decides(lesser, "toString") && !Decides(greater, "toString")
    ensures FieldEquals(FieldAt(UpsertsSlot(None, [lesser, greater]), "toString"), Get(lesser.fields, "toString"))
    ensures FieldEquals(FieldAt(UpsertsSlot(None, [greater, lesser]), "toString"), Undefined)
  {
    hide Put, CasOf, WellFormed, Decides, FieldAt, FieldEquals, UpsertsSlot, Upserts, UpsertOne, ForId, UpsertSlot;
    var f := "toString";
    var a, b := Some(Put(None, lesser)), Some(Put(None, greater));
    NothingHeld(f);
    OneUpsert(None, lesser);
    OneUpsert(None, greater);
    PutHolds(None, lesser);
    PutHolds(None, greater);
    Snoc(map[], [lesser], greater, "e", None);
    Snoc(map[], [greater], lesser, "e", None);
    UpsertCases(a, greater);
    UpsertCases(b, lesser);
    assert [lesser] + [greater] == [lesser, greater] && [greater] + [lesser] == [greater, lesser];
    PutField(None, lesser, f);
    PutField(None, greater, f);
    PutField(a, greater, f);
    FieldEqualsLaws(FieldAt(UpsertsSlot(None, [lesser, greater]), f), FieldAt(a, f), Get(lesser.fields, f));
  }

  lemma NothingHeld(f: string)
    ensures CasOf(None) == None && FieldAt(None, f) == Undefined && forall id :: Slot(map[], id) == None
  {
  }

  lemma UpsertCases(s: Option<Stored>, u: Upsert)
    ensures UpsertSlot(s, u) == if Supersedes(CasOf(s), u.stamp) then Some(Put(s, u)) else s
  {
  }

  /** Below one the stored nonce no longer tells upserts apart: these two valid ones never converge. */
  lemma LowNoncesDiverge(valid: ValidIndex)
    ensures var u, v := Rectangle(Stamp(1, 0), map[]), Rectangle(Stamp(1, -1), map[]);
            && WellFormed(u) && Normalize(u.fields, None, valid) == Some(u.fields)
            && WellFormed(v) && Normalize(v.fields, None, valid) == Some(v.fields)
            && exists vs :: Permuted(vs, [u, v]) && !SameSlot(Slot(Upserts(map[], vs), "e"), Slot(Upserts(map[], [u, v]), "e"))
  {
    hide *;
    var u, v := Rectangle(Stamp(1, 0), map[]), Rectangle(Stamp(1, -1), map[]);
    RectangleIsValid(Stamp(1, 0), map[], valid);
    RectangleIsValid(Stamp(1, -1), map[], valid);
    RectangleIsWellFormed(Stamp(1, 0), map[]);
    RectangleIsWellFormed(Stamp(1, -1), map[]);
    NothingHeld("versionNonce");
    ForIdAll([u, v], "e");
    NoncesDisagree(u, v);
    assert !FieldAgrees(Slot(map[], "e"), ForId([u, v], "e"), "versionNonce");
    OrderIsIrrelevantIff(map[], [u, v], "e");
  }

  lemma NoncesDisagree(u: Upsert, v: Upsert)
    requires WellFormed(u) && WellFormed(v) && u.stamp == Stamp(1, 0) && v.stamp == Stamp(1, -1)
    ensures !FieldAgrees(None, [u, v], "versionNonce")
  {
    InheritedNames();
    hide INHERITED, JsonForm;
    assert u in [u, v] && v in [u, v];
    assert Top(None, [u, v], u) && Top(None, [u, v], v);
    assert Decides(u, "versionNonce") && Decides(v, "versionNonce");
    assert !FieldEquals(Get(u.fields, "versionNonce"), Get(v.fields, "versionNonce"));
  }
}
