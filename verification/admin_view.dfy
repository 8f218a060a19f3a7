/**
 * The admin page of admin.js: the derived figures and tables it renders, and
 * its client state (`currentSessionRef`, `participantsRef`, the participant
 * subscription slot `unsubscribeParticipants`, the two buttons) as a class
 * whose methods are the event handlers and button actions.
 */
module AdminView {
  import opened Common
  import opened Documents
  import Lifecycle

  /** The figures of the current-session panel (`updateCurrentSessionInfo`). */
  datatype SessionInfo = SessionInfo(started: Option<Timestamp>, required: int, joined: int, remaining: int)

  /** The current-session panel: "No active session" or the figures of the running one. */
  datatype Panel = NoActiveSession | Details(info: SessionInfo)

  /**
   * The figures of one session, with the page's defaults; `started == None`
   * means the page shows the local clock instead. The percentage is left out.
   */
  function Info(s: Session): (i: SessionInfo)
    ensures i.joined + i.remaining == i.required
    ensures i.required != 0
    ensures s.joinedContacts.None? ==> i.joined == 0
    ensures s.requiredContacts.None? ==> i.required == 100
    ensures s.requiredContacts.Some? && s.requiredContacts.value != 0 ==> i.required == s.requiredContacts.value
    ensures s.requiredContacts == Some(0) ==> i.required == 100
    ensures s.joinedContacts.Some? ==> i.joined == s.joinedContacts.value
    ensures i.started == s.startTime
  {
    SessionInfo(s.startTime, Required(s), Joined(s), Required(s) - Joined(s))
  }

  /** A table cell that shows either a timestamp or a fixed text. */
  datatype Cell = At(t: Timestamp) | Label(text: string)

  /** One row of the session-history table. */
  datatype HistoryRow = HistoryRow(started: Option<Timestamp>, ended: Cell, required: int, joined: int, status: string)

  /** The row `loadSessionHistory` renders for a session. */
  function HistoryRowOf(s: Session): (row: HistoryRow)
    ensures row.status == "Active" <==> s.isActive
    ensures row.status == "Active" || row.status == "Ended"
    ensures row.ended == Label("Active") <==> s.endTime.None?
    ensures s.endTime.Some? ==> row.ended == At(s.endTime.value)
    ensures row.required == Info(s).required && row.joined == Info(s).joined
  {
    HistoryRow(
      s.startTime,
      if s.endTime.Some? then At(s.endTime.value) else Label("Active"),
      Required(s),
      Joined(s),
      if s.isActive then "Active" else "Ended")
  }

  /** `value || 'N/A'` for a text field: the empty string is falsy. */
  function OrNA(f: string): string
  {
    if f == "" then "N/A" else f
  }

  /** A field shows as itself when it is non-empty and as "N/A" otherwise; it never shows empty. */
  lemma OrNAShows(f: string)
    ensures OrNA(f) != ""
    ensures OrNA(f) == f <==> f != ""
    ensures OrNA(f) == "N/A" <==> f == "" || f == "N/A"
  {
  }

  /** One row of the admin's participant table. */
  datatype ParticipantRow = ParticipantRow(name: string, phone: string, joinedAt: Timestamp, ipAddress: string)

  function RowOf(p: Participant): (row: ParticipantRow)
    ensures row.name != "" && row.phone != "" && row.ipAddress != ""
    ensures p.name != "" ==> row.name == p.name
    ensures p.phone != "" ==> row.phone == p.phone
    ensures p.ipAddress != "" ==> row.ipAddress == p.ipAddress
    ensures p.name == "" ==> row.name == "N/A"
    ensures p.phone == "" ==> row.phone == "N/A"
    ensures p.ipAddress == "" ==> row.ipAddress == "N/A"
    ensures row.joinedAt == p.joinedAt
  {
    ParticipantRow(OrNA(p.name), OrNA(p.phone), p.joinedAt, OrNA(p.ipAddress))
  }

  /** The participant listener's loop: one row per document, in snapshot order, and their count. */
  method ParticipantTable(docs: seq<Participant>) returns (rows: seq<ParticipantRow>, count: nat)
    ensures count == |docs| && |rows| == |docs|
    ensures forall k :: 0 <= k < |docs| ==> rows[k] == RowOf(docs[k])
  {
    rows, count := [], 0;
    if docs == [] {
      return;
    }
    for i := 0 to |docs|
      invariant count == i && |rows| == i
      invariant forall k :: 0 <= k < i ==> rows[k] == RowOf(docs[k])
    {
      rows := rows + [RowOf(docs[i])];
      count := count + 1;
    }
  }

  /** The history listener's loop: one row per session document, in snapshot order. */
  method HistoryTable(docs: seq<Session>) returns (rows: seq<HistoryRow>)
    ensures |rows| == |docs|
    ensures forall k :: 0 <= k < |docs| ==> rows[k] == HistoryRowOf(docs[k])
  {
    rows := [];
    for i := 0 to |docs|
      invariant |rows| == i
      invariant forall k :: 0 <= k < i ==> rows[k] == HistoryRowOf(docs[k])
    {
      rows := rows + [HistoryRowOf(docs[i])];
    }
  }

  /** Cancels one listener for `id`, the earliest registered, if there is one. */
  function Cancel(live: seq<SessionId>, id: SessionId): (r: seq<SessionId>)
    ensures id !in live ==> r == live
    ensures id in live ==> |r| == |live| - 1
    ensures forall x :: x in r ==> x in live
    ensures id in live ==> multiset(r) + multiset{id} == multiset(live)
  {
    if live == [] then []
    else
      assert live == [live[0]] + live[1..];
      if live[0] == id then live[1..]
      else [live[0]] + Cancel(live[1..], id)
  }

  /**
   * The admin client. `listeners` lists the participant listeners this page
   * has registered with the store and not cancelled, oldest first.
   */
  class AdminConsole {
    const db: Directory
    var currentSessionRef: Option<SessionId>
    var participantsRef: Option<SessionId>
    var participantSub: Option<SessionId>
    var listeners: seq<SessionId>
    var startDisabled: bool
    var endDisabled: bool
    var panel: Panel
    var rows: seq<ParticipantRow>
    var count: nat
    var history: seq<HistoryRow>

    /** The subscription slot holds exactly the live participant listeners. */
    ghost predicate Valid()
      reads this
    {
      listeners == if participantSub.Some? then [participantSub.value] else []
    }

    constructor (db: Directory)
      ensures Valid() && this.db == db
      ensures currentSessionRef.None? && participantsRef.None? && participantSub.None?
      ensures !startDisabled && !endDisabled
      ensures panel == NoActiveSession && rows == [] && count == 0 && history == []
    {
      this.db := db;
      currentSessionRef, participantsRef, participantSub := None, None, None;
      listeners := [];
      startDisabled, endDisabled := false, false;
      panel, rows, count, history := NoActiveSession, [], 0, [];
    }

    /** At most one participant subscription is live at a time. */
    lemma AtMostOneListener()
      requires Valid()
      ensures |listeners| <= 1
    {
    }

    /** `loadParticipants`: cancel the previous participant listener, then register one for `id`. */
    method LoadParticipants(id: SessionId)
      requires Valid()
      modifies this`participantSub, this`listeners
      ensures Valid()
      ensures participantSub == Some(id) && listeners == [id]
    {
      if participantSub.Some? {
        listeners := Cancel(listeners, participantSub.value);
      }
      listeners := listeners + [id];
      participantSub := Some(id);
    }

    /**
     * The handler of the active-session listener in `loadAdminData`: with an
     * active session, point at its first document and follow its participants;
     * without one, reset the panel and cancel the participant listener.
     */
    method OnActiveSessions(snapshot: seq<SessionDoc>)
      requires Valid()
      modifies this
      ensures Valid() && history == old(history)
      ensures startDisabled == (snapshot != []) && endDisabled == (snapshot == [])
      ensures snapshot != [] ==>
                && currentSessionRef == Some(snapshot[0].id)
                && participantsRef == Some(snapshot[0].id)
                && participantSub == Some(snapshot[0].id) && listeners == [snapshot[0].id]
                && panel == Details(Info(snapshot[0].data))
                && rows == old(rows) && count == old(count)
      ensures snapshot == [] ==>
                && currentSessionRef.None? && participantsRef == old(participantsRef)
                && participantSub.None? && listeners == []
                && panel == NoActiveSession && rows == [] && count == 0
    {
      if snapshot != [] {
        Follow(snapshot[0]);
      } else {
        Reset();
      }
    }

    /** The branch for a non-empty snapshot. */
    method Follow(doc: SessionDoc)
      requires Valid()
      modifies this`currentSessionRef, this`participantsRef, this`panel, this`participantSub, this`listeners,
               this`startDisabled, this`endDisabled
      ensures Valid()
      ensures currentSessionRef == Some(doc.id) && participantsRef == Some(doc.id)
      ensures participantSub == Some(doc.id) && listeners == [doc.id]
      ensures panel == Details(Info(doc.data))
      ensures startDisabled && !endDisabled
    {
      currentSessionRef := Some(doc.id);
      participantsRef := Some(doc.id);
      panel := Details(Info(doc.data));
      LoadParticipants(doc.id);
      startDisabled := true;
      endDisabled := false;
    }

    /** The branch for an empty snapshot. */
    method Reset()
      requires Valid()
      modifies this`currentSessionRef, this`panel, this`rows, this`count, this`participantSub, this`listeners,
               this`startDisabled, this`endDisabled
      ensures Valid()
      ensures currentSessionRef.None? && participantSub.None? && listeners == []
      ensures panel == NoActiveSession && rows == [] && count == 0
      ensures !startDisabled && endDisabled
    {
      panel := NoActiveSession;
      rows, count := [], 0;
      startDisabled := false;
      endDisabled := true;
      currentSessionRef := None;
      if participantSub.Some? {
        listeners := Cancel(listeners, participantSub.value);
        participantSub := None;
      }
    }

    /** The participant listener of `loadParticipants`: the table is rebuilt from the snapshot. */
    method OnParticipants(snapshot: seq<Participant>)
      modifies this`rows, this`count
      ensures count == |snapshot| && |rows| == |snapshot|
      ensures forall k :: 0 <= k < |snapshot| ==> rows[k] == RowOf(snapshot[k])
    {
      rows, count := ParticipantTable(snapshot);
    }

    /** The history listener of `loadSessionHistory`: the table is rebuilt from the snapshot. */
    method OnHistory(snapshot: seq<Session>)
      modifies this`history
      ensures |history| == |snapshot|
      ensures forall k :: 0 <= k < |snapshot| ==> history[k] == HistoryRowOf(snapshot[k])
    {
      history := HistoryTable(snapshot);
    }

    /**
     * `startSession` with the parsed target (`None` for NaN), the signed-in
     * admin and the server time of the write.
     */
    method StartSession(contacts: Option<int>, admin: User, now: Timestamp) returns (outcome: Lifecycle.StartOutcome)
      modifies db
      ensures var r := Lifecycle.Start(old(db.sessions), contacts, admin, now);
              outcome == r.outcome && db.sessions == r.store
    {
      if Lifecycle.TargetRejected(contacts) {
        return Lifecycle.InvalidTarget;
      }
      var active := ActiveQuery(db.sessions);
      if active != [] {
        return Lifecycle.AlreadyActive;
      }
      outcome := Lifecycle.Started(|db.sessions|);
      db.sessions := db.sessions + [Lifecycle.NewSession(contacts.value, admin, now)];
    }

    /** `endSession`, with the answer to the confirmation dialog and the server time. */
    method EndSession(confirmed: bool, now: Timestamp) returns (outcome: Lifecycle.EndOutcome)
      modifies db
      ensures var r := Lifecycle.End(old(db.sessions), currentSessionRef, confirmed, now);
              outcome == r.outcome && db.sessions == r.store
    {
      if currentSessionRef.None? {
        return Lifecycle.NoCurrentSession;
      }
      if !confirmed {
        return Lifecycle.Declined;
      }
      var id := currentSessionRef.value;
      if id >= |db.sessions| {
        return Lifecycle.NotFound;
      }
      db.sessions := db.sessions[id := db.sessions[id].(isActive := false, endTime := Some(now))];
      outcome := Lifecycle.Ended(id);
    }
  }
}
