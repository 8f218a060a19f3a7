/**
 * The document store: the `sessions` collection, each session document holding
 * its `participants` sub-collection in insertion order, and the one query the
 * clients subscribe to (`where('isActive', '==', true)`).
 */
module Documents {
  import opened Common

  /** A participant document, written once by registration and never changed. */
  datatype Participant = Participant(name: string, phone: string, joinedAt: Timestamp, ipAddress: string)

  /**
   * A session document. The two counters are optional because the clients read
   * them with a default (`|| 0`, `|| 100`); `endTime` is absent while the session runs.
   */
  datatype Session = Session(
    startTime: Option<Timestamp>,
    endTime: Option<Timestamp>,
    requiredContacts: Option<int>,
    joinedContacts: Option<int>,
    isActive: bool,
    createdBy: string,
    createdByEmail: string,
    participants: seq<Participant>)

  /** A document as a snapshot delivers it: its id and its data. */
  datatype SessionDoc = SessionDoc(id: SessionId, data: Session)

  /** `session.joinedContacts || 0`: a missing (or zero) counter reads as 0. */
  function Joined(s: Session): int
  {
    match s.joinedContacts
    case Some(n) => n
    case None => 0
  }

  /** `session.requiredContacts || 100`: a missing or zero target reads as 100. */
  function Required(s: Session): int
  {
    match s.requiredContacts
    case Some(n) => if n == 0 then 100 else n
    case None => 100
  }

  /** The store itself: the hosted collection, held in memory. */
  class Directory {
    var sessions: seq<Session>

    constructor ()
      ensures sessions == []
    {
      sessions := [];
    }
  }

  /** Some session in the store has `isActive == true`. */
  predicate HasActive(store: seq<Session>)
  {
    exists i :: 0 <= i < |store| && store[i].isActive
  }

  /** At most one session of the store is active. */
  predicate SingleActive(store: seq<Session>)
  {
    forall i, j :: 0 <= i < |store| && 0 <= j < |store| && store[i].isActive && store[j].isActive ==> i == j
  }

  /**
   * The result set of `where('isActive', '==', true)`: exactly the active
   * sessions, each once, in store order.
   */
  function ActiveQuery(store: seq<Session>): (r: seq<SessionDoc>)
    ensures forall k :: 0 <= k < |r| ==> r[k].id < |store| && r[k].data == store[r[k].id] && r[k].data.isActive
    ensures forall k, l :: 0 <= k < l < |r| ==> r[k].id < r[l].id
    ensures forall i :: 0 <= i < |store| && store[i].isActive ==> SessionDoc(i, store[i]) in r
    ensures r == [] <==> !HasActive(store)
  {
    if store == [] then []
    else
      var last := |store| - 1;
      var front := ActiveQuery(store[..last]);
      assert forall i :: 0 <= i < last ==> store[..last][i] == store[i];
      if store[last].isActive then front + [SessionDoc(last, store[last])] else front
  }

  /** The query returns at most one document exactly when at most one session is active. */
  lemma SingleActiveIffQuery(store: seq<Session>)
    ensures SingleActive(store) <==> |ActiveQuery(store)| <= 1
  {
    var r := ActiveQuery(store);
    if |r| <= 1 {
      forall i, j | 0 <= i < |store| && 0 <= j < |store| && store[i].isActive && store[j].isActive
        ensures i == j
      {
        assert SessionDoc(i, store[i]) in r && SessionDoc(j, store[j]) in r;
      }
    } else {
      assert r[0].id < r[1].id;
      assert store[r[0].id].isActive && store[r[1].id].isActive;
    }
  }
}
