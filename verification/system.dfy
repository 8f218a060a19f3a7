/**
 * The shared store driven by any sequence of admin and attendee actions, each
 * one sequential step. States the invariants the two clients keep between
 * them: at most one active session, counters equal to participant counts,
 * distinct phones per session, ended sessions staying ended.
 */
module System {
  import opened Common
  import opened Documents
  import Lifecycle
  import Registrar
  import AdminView
  import AttendeeView

  /** One action against the store: an admin's start or end, an attendee's registration. */
  datatype Action =
    | StartAction(contacts: Option<int>, admin: User, now: Timestamp)
    | EndAction(ref: Option<SessionId>, confirmed: bool, now: Timestamp)
    | RegisterAction(ref: Option<SessionId>, name: string, phone: string, lookup: Option<string>, now: Timestamp)

  function Apply(store: seq<Session>, a: Action): seq<Session>
  {
    match a
    case StartAction(contacts, admin, now) => Lifecycle.Start(store, contacts, admin, now).store
    case EndAction(ref, confirmed, now) => Lifecycle.End(store, ref, confirmed, now).store
    case RegisterAction(ref, name, phone, lookup, now) => Registrar.Register(store, ref, name, phone, lookup, now).store
  }

  /** The store after the actions, in order. */
  function Run(store: seq<Session>, actions: seq<Action>): seq<Session>
    decreases |actions|
  {
    if actions == [] then store else Run(Apply(store, actions[0]), actions[1..])
  }

  /**
   * A session as the clients create and update it: it has a start time and a
   * positive target, it is active exactly while it has no end time, and its
   * counter matches its participants, whose phones are distinct.
   */
  predicate WellFormed(s: Session)
  {
    && s.startTime.Some?
    && s.requiredContacts.Some? && s.requiredContacts.value >= 1
    && (s.isActive <==> s.endTime.None?)
    && Registrar.WellCounted(s)
  }

  predicate StoreInvariant(store: seq<Session>)
  {
    SingleActive(store) && forall i :: 0 <= i < |store| ==> WellFormed(store[i])
  }

  lemma StartKeepsInvariant(store: seq<Session>, contacts: Option<int>, admin: User, now: Timestamp)
    requires StoreInvariant(store)
    ensures StoreInvariant(Lifecycle.Start(store, contacts, admin, now).store)
  {
    Lifecycle.StartKeepsSingleActive(store, contacts, admin, now);
    var r := Lifecycle.Start(store, contacts, admin, now).store;
    forall i | 0 <= i < |r|
      ensures WellFormed(r[i])
    {
      if i < |store| {
        assert r[i] == r[..|store|][i];
      }
    }
  }

  lemma EndKeepsInvariant(store: seq<Session>, ref: Option<SessionId>, confirmed: bool, now: Timestamp)
    requires StoreInvariant(store)
    ensures StoreInvariant(Lifecycle.End(store, ref, confirmed, now).store)
  {
    Lifecycle.EndKeepsSingleActive(store, ref, confirmed, now);
  }

  lemma RegisterKeepsInvariant(store: seq<Session>, ref: Option<SessionId>, name: string, phone: string,
                               lookup: Option<string>, now: Timestamp)
    requires StoreInvariant(store)
    ensures StoreInvariant(Registrar.Register(store, ref, name, phone, lookup, now).store)
  {
    Registrar.RegisterKeepsWellCounted(store, ref, name, phone, lookup, now);
    var r := Registrar.Register(store, ref, name, phone, lookup, now);
    if r.outcome.Registered? {
      var id := r.outcome.id;
      forall i | 0 <= i < |store|
        ensures r.store[i].isActive == store[i].isActive && (WellFormed(store[i]) ==> WellFormed(r.store[i]))
      {
        if i != id {
          assert r.store[i] == store[i];
        }
      }
      SameActivity(store, r.store);
    }
  }

  /** Two stores whose sessions are active at the same places agree on single activity. */
  lemma SameActivity(a: seq<Session>, b: seq<Session>)
    requires |a| == |b| && forall i :: 0 <= i < |a| ==> a[i].isActive == b[i].isActive
    ensures SingleActive(a) ==> SingleActive(b)
  {
  }

  /** Every action keeps the store invariant. */
  lemma ApplyKeepsInvariant(store: seq<Session>, a: Action)
    requires StoreInvariant(store)
    ensures StoreInvariant(Apply(store, a))
  {
    match a
    case StartAction(contacts, admin, now) => StartKeepsInvariant(store, contacts, admin, now);
    case EndAction(ref, confirmed, now) => EndKeepsInvariant(store, ref, confirmed, now);
    case RegisterAction(ref, name, phone, lookup, now) => RegisterKeepsInvariant(store, ref, name, phone, lookup, now);
  }

  lemma {:induction false} RunKeepsInvariant(store: seq<Session>, actions: seq<Action>)
    requires StoreInvariant(store)
    ensures StoreInvariant(Run(store, actions))
    decreases |actions|
  {
    if actions != [] {
      ApplyKeepsInvariant(store, actions[0]);
      RunKeepsInvariant(Apply(store, actions[0]), actions[1..]);
    }
  }

  /** Every store the clients can produce from an empty collection keeps the invariant. */
  lemma ReachableStoresAreWellFormed(actions: seq<Action>)
    ensures StoreInvariant(Run([], actions))
  {
    RunKeepsInvariant([], actions);
  }

  /**
   * How a store may change: sessions are only added, a session's start time,
   * target and creator never change, its participants only grow at the end,
   * and a session that has ended stays ended.
   */
  predicate Evolves(before: seq<Session>, after: seq<Session>)
  {
    && |before| <= |after|
    && forall i :: 0 <= i < |before| ==>
         && after[i].startTime == before[i].startTime
         && after[i].requiredContacts == before[i].requiredContacts
         && after[i].createdBy == before[i].createdBy
         && after[i].createdByEmail == before[i].createdByEmail
         && before[i].participants <= after[i].participants
         && (!before[i].isActive ==> !after[i].isActive)
  }

  /** A start keeps every earlier session exactly as it was. */
  lemma StartEvolves(store: seq<Session>, contacts: Option<int>, admin: User, now: Timestamp)
    ensures Evolves(store, Lifecycle.Start(store, contacts, admin, now).store)
    ensures forall i :: 0 <= i < |store| ==> Lifecycle.Start(store, contacts, admin, now).store[i] == store[i]
  {
    var r := Lifecycle.Start(store, contacts, admin, now).store;
    forall i | 0 <= i < |store|
      ensures r[i] == store[i]
    {
      assert r[i] == r[..|store|][i];
    }
  }

  /** An end adds no session and leaves every session's participants and counter as they were. */
  lemma EndEvolves(store: seq<Session>, ref: Option<SessionId>, confirmed: bool, now: Timestamp)
    ensures Evolves(store, Lifecycle.End(store, ref, confirmed, now).store)
    ensures var r := Lifecycle.End(store, ref, confirmed, now).store;
            && |r| == |store|
            && forall i :: 0 <= i < |store| ==>
                 r[i].participants == store[i].participants && r[i].joinedContacts == store[i].joinedContacts
  {
  }

  lemma RegisterEvolves(store: seq<Session>, ref: Option<SessionId>, name: string, phone: string,
                        lookup: Option<string>, now: Timestamp)
    ensures Evolves(store, Registrar.Register(store, ref, name, phone, lookup, now).store)
    ensures var r := Registrar.Register(store, ref, name, phone, lookup, now).store;
            && |r| == |store|
            && forall j :: 0 <= j < |store| && Some(j) != ref ==> r[j] == store[j]
    ensures var r := Registrar.Register(store, ref, name, phone, lookup, now).store;
            forall j :: 0 <= j < |store| ==>
              && |store[j].participants| <= |r[j].participants| <= |store[j].participants| + 1
              && (|r[j].participants| == |store[j].participants| + 1 ==>
                    Joined(r[j]) == Joined(store[j]) + 1)
  {
    var r := Registrar.Register(store, ref, name, phone, lookup, now);
    if r.outcome.Registered? {
      var id := r.outcome.id;
      assert store[id].participants <= r.store[id].participants;
    }
  }

  /** One action only changes the store in the ways `Evolves` allows. */
  lemma ApplyEvolves(store: seq<Session>, a: Action)
    ensures Evolves(store, Apply(store, a))
  {
    match a
    case StartAction(contacts, admin, now) => StartEvolves(store, contacts, admin, now);
    case EndAction(ref, confirmed, now) => EndEvolves(store, ref, confirmed, now);
    case RegisterAction(ref, name, phone, lookup, now) => RegisterEvolves(store, ref, name, phone, lookup, now);
  }

  lemma {:induction false} RunEvolves(store: seq<Session>, actions: seq<Action>)
    ensures Evolves(store, Run(store, actions))
    decreases |actions|
  {
    if actions != [] {
      var next := Apply(store, actions[0]);
      ApplyEvolves(store, actions[0]);
      RunEvolves(next, actions[1..]);
      var last := Run(next, actions[1..]);
      forall i | 0 <= i < |store|
        ensures store[i].participants <= last[i].participants
      {
        assert store[i].participants <= next[i].participants <= last[i].participants;
      }
    }
  }

  /** An ended session is never reopened, whatever happens afterwards. */
  lemma EndedStaysEnded(store: seq<Session>, actions: seq<Action>, id: SessionId)
    requires id < |store| && !store[id].isActive
    ensures id < |Run(store, actions)| && !Run(store, actions)[id].isActive
  {
    RunEvolves(store, actions);
  }

  /**
   * On a well-formed session the admin panel shows the real figures: the
   * target as set, the number of registered participants, and their difference.
   */
  lemma PanelOfWellFormed(s: Session)
    requires WellFormed(s)
    ensures AdminView.Info(s).required == s.requiredContacts.value
    ensures AdminView.Info(s).joined == |s.participants|
    ensures AdminView.Info(s).remaining == s.requiredContacts.value - |s.participants|
  {
  }

  /** On a well-formed session the two "Active" labels of its history row agree. */
  lemma HistoryLabelsAgree(s: Session)
    requires WellFormed(s)
    ensures AdminView.HistoryRowOf(s).status == "Active" <==> AdminView.HistoryRowOf(s).ended == AdminView.Label("Active")
  {
  }

  /**
   * When the attendee's list is exactly a well-formed session's participants,
   * the goal check agrees with the session's own counter.
   */
  lemma GoalMatchesCounter(doc: SessionDoc)
    requires WellFormed(doc.data)
    ensures AttendeeView.GoalReached(Some(doc), |doc.data.participants|) <==> Joined(doc.data) >= Required(doc.data)
  {
  }
}
