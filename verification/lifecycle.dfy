/**
 * Session lifecycle, the store side of `startSession` and `endSession` in
 * admin.js: what each does to the `sessions` collection. Every `await` is one
 * sequential step; transport failures are not modelled.
 */
module Lifecycle {
  import opened Common
  import opened Documents

  /**
   * The guard `!contacts || contacts < 1` on the parsed target; `None` stands
   * for NaN, and both NaN and 0 are falsy.
   */
  predicate TargetRejected(contacts: Option<int>)
  {
    contacts.None? || contacts.value == 0 || contacts.value < 1
  }

  datatype StartOutcome = InvalidTarget | AlreadyActive | Started(id: SessionId)

  datatype StartResult = StartResult(outcome: StartOutcome, store: seq<Session>)

  /** The falsy-or-below-one guard rejects exactly the targets that are not at least 1. */
  lemma TargetRejectedIff(contacts: Option<int>)
    ensures TargetRejected(contacts) <==> !(contacts.Some? && contacts.value >= 1)
  {
  }

  /** The document `startSession` adds: running, no one joined yet, stamped with the admin. */
  function NewSession(contacts: int, admin: User, now: Timestamp): Session
  {
    Session(Some(now), None, Some(contacts), Some(0), true, admin.uid, admin.email, [])
  }

  /** A session as the start writes it reads as its target and no one joined; the defaults never apply to it. */
  lemma NewSessionReadings(contacts: int, admin: User, now: Timestamp)
    requires contacts >= 1
    ensures Required(NewSession(contacts, admin, now)) == contacts
    ensures Joined(NewSession(contacts, admin, now)) == 0
  {
  }

  /**
   * `startSession`: reject a bad target, refuse while any session is active,
   * otherwise add one new session. A refusal leaves the store as it was.
   */
  function Start(store: seq<Session>, contacts: Option<int>, admin: User, now: Timestamp): (r: StartResult)
    ensures r.outcome == InvalidTarget <==> !(contacts.Some? && contacts.value >= 1)
    ensures r.outcome == AlreadyActive <==> contacts.Some? && contacts.value >= 1 && HasActive(store)
    ensures !r.outcome.Started? ==> r.store == store
    ensures r.outcome.Started? ==>
              && r.outcome.id == |store|
              && |r.store| == |store| + 1
              && r.store[..|store|] == store
              && r.store[|store|] == NewSession(contacts.value, admin, now)
  {
    if TargetRejected(contacts) then StartResult(InvalidTarget, store)
    else if ActiveQuery(store) != [] then StartResult(AlreadyActive, store)
    else
      var added := store + [NewSession(contacts.value, admin, now)];
      assert added[..|store|] == store;
      StartResult(Started(|store|), added)
  }

  /**
   * From a store with no active session, a successful start leaves exactly one
   * active session: the one it created.
   */
  lemma {:induction false} StartLeavesOneActive(store: seq<Session>, contacts: Option<int>, admin: User, now: Timestamp)
    requires !HasActive(store)
    requires Start(store, contacts, admin, now).outcome.Started?
    ensures ActiveQuery(Start(store, contacts, admin, now).store)
              == [SessionDoc(|store|, NewSession(contacts.value, admin, now))]
  {
    var r := Start(store, contacts, admin, now).store;
    assert r[..|r| - 1] == store;
    assert ActiveQuery(store) == [];
  }

  /** Starting never breaks the single-active-session invariant. */
  lemma StartKeepsSingleActive(store: seq<Session>, contacts: Option<int>, admin: User, now: Timestamp)
    requires SingleActive(store)
    ensures SingleActive(Start(store, contacts, admin, now).store)
  {
    var r := Start(store, contacts, admin, now);
    if r.outcome.Started? {
      StartLeavesOneActive(store, contacts, admin, now);
      SingleActiveIffQuery(r.store);
    }
  }

  datatype EndOutcome = NoCurrentSession | Declined | Ended(id: SessionId) | NotFound

  datatype EndResult = EndResult(outcome: EndOutcome, store: seq<Session>)

  /**
   * `endSession`: needs a non-null `currentSessionRef` and a confirmed dialog;
   * then the referenced document gets `isActive = false` and a fresh `endTime`.
   * Nothing checks that the session is still running. An update of a document
   * that does not exist is rejected by the store and the error is caught.
   */
  function End(store: seq<Session>, ref: Option<SessionId>, confirmed: bool, now: Timestamp): (r: EndResult)
    ensures r.outcome == NoCurrentSession <==> ref.None?
    ensures r.outcome == Declined <==> ref.Some? && !confirmed
    ensures r.outcome.Ended? <==> ref.Some? && confirmed && ref.value < |store|
    ensures !r.outcome.Ended? ==> r.store == store
    ensures r.outcome.Ended? ==>
              && Some(r.outcome.id) == ref
              && |r.store| == |store|
              && r.store[r.outcome.id] == store[r.outcome.id].(isActive := false, endTime := Some(now))
              && forall j :: 0 <= j < |store| && j != r.outcome.id ==> r.store[j] == store[j]
  {
    if ref.None? then EndResult(NoCurrentSession, store)
    else if !confirmed then EndResult(Declined, store)
    else if ref.value >= |store| then EndResult(NotFound, store)
    else
      var id := ref.value;
      EndResult(Ended(id), store[id := store[id].(isActive := false, endTime := Some(now))])
  }

  /** Ending never breaks the single-active-session invariant. */
  lemma EndKeepsSingleActive(store: seq<Session>, ref: Option<SessionId>, confirmed: bool, now: Timestamp)
    requires SingleActive(store)
    ensures SingleActive(End(store, ref, confirmed, now).store)
  {
  }

  /** Ending the one running session leaves the store with no active session at all. */
  lemma EndOfActiveLeavesNone(store: seq<Session>, id: SessionId, now: Timestamp)
    requires SingleActive(store)
    requires id < |store| && store[id].isActive
    ensures End(store, Some(id), true, now).outcome == Ended(id)
    ensures !HasActive(End(store, Some(id), true, now).store)
  {
    var r := End(store, Some(id), true, now).store;
    forall j | 0 <= j < |r|
      ensures !r[j].isActive
    {
      if j != id {
        assert !store[j].isActive;
      }
    }
  }

  /**
   * Because only the reference is checked, ending a session that has already
   * ended succeeds again and overwrites its `endTime`.
   */
  lemma EndRestampsEndedSession(store: seq<Session>, id: SessionId, t: Timestamp, now: Timestamp)
    requires id < |store| && !store[id].isActive && store[id].endTime == Some(t) && t != now
    ensures End(store, Some(id), true, now).outcome == Ended(id)
    ensures End(store, Some(id), true, now).store[id].endTime == Some(now) != store[id].endTime
  {
  }
}
