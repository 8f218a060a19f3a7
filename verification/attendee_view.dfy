/**
 * The attendee page of script.js: the client state (`currentSession`,
 * `currentSessionRef`, `sessionParticipants`, the sections it shows or hides)
 * as a class whose methods are its event handlers and buttons.
 */
module AttendeeView {
  import opened Common
  import opened Documents
  import Registrar
  import Vcard

  /**
   * The completion check of the participant listener: a session is known and
   * the local count has reached its `requiredContacts` (a missing target never
   * compares as reached).
   */
  function GoalReached(current: Option<SessionDoc>, count: nat): (b: bool)
    ensures b ==> current.Some? && current.value.data.requiredContacts.Some?
    ensures current.Some? && current.value.data.requiredContacts.Some? ==>
              (b <==> count >= current.value.data.requiredContacts.value)
  {
    match current
    case None => false
    case Some(doc) =>
      match doc.data.requiredContacts
      case None => false
      case Some(required) => count >= required
  }

  /** Once reached, the goal stays reached for every larger count. */
  lemma GoalStaysReached(current: Option<SessionDoc>, count: nat, more: nat)
    requires GoalReached(current, count) && count <= more
    ensures GoalReached(current, more)
  {
  }

  /**
   * The attendee client. `listeners` lists the participant listeners this page
   * has registered with the store; the page never cancels one.
   */
  class AttendeePage {
    const db: Directory
    var currentSession: Option<SessionDoc>
    var currentSessionRef: Option<SessionId>
    var sessionParticipants: seq<Participant>
    var listeners: seq<SessionId>
    var formShown: bool
    var progressShown: bool
    var listShown: bool
    var downloadShown: bool
    var joinedShown: int
    var neededShown: Option<int>

    constructor (db: Directory)
      ensures this.db == db && currentSession.None? && currentSessionRef.None?
      ensures sessionParticipants == [] && listeners == []
      ensures !formShown && !progressShown && !listShown && !downloadShown
    {
      this.db := db;
      currentSession, currentSessionRef := None, None;
      sessionParticipants, listeners := [], [];
      formShown, progressShown, listShown, downloadShown := false, false, false, false;
      joinedShown, neededShown := 0, None;
    }

    /**
     * The active-session listener of `init`. With a session, remember its first
     * document, show the form and progress, and register one more participant
     * listener (`updateSessionUI` throws first when the document has no
     * `startTime` yet, and the rest of the handler does not run). Without one,
     * hide the sections; the remembered session and reference are kept.
     */
    method OnActiveSessions(snapshot: seq<SessionDoc>)
      modifies this
      ensures sessionParticipants == old(sessionParticipants)
      ensures snapshot != [] ==>
                && currentSession == Some(snapshot[0]) && currentSessionRef == Some(snapshot[0].id)
                && listShown == old(listShown) && downloadShown == old(downloadShown)
      ensures snapshot != [] && snapshot[0].data.startTime.Some? ==>
                && formShown && progressShown
                && joinedShown == Joined(snapshot[0].data)
                && neededShown == snapshot[0].data.requiredContacts
                && listeners == old(listeners) + [snapshot[0].id]
      ensures snapshot != [] && snapshot[0].data.startTime.None? ==>
                && formShown == old(formShown) && progressShown == old(progressShown)
                && joinedShown == old(joinedShown) && neededShown == old(neededShown)
                && listeners == old(listeners)
      ensures snapshot == [] ==>
                && currentSession == old(currentSession) && currentSessionRef == old(currentSessionRef)
                && !formShown && !progressShown && !listShown && !downloadShown
                && joinedShown == old(joinedShown) && neededShown == old(neededShown)
                && listeners == old(listeners)
    {
      if snapshot != [] {
        var doc := snapshot[0];
        currentSession := Some(doc);
        currentSessionRef := Some(doc.id);
        if doc.data.startTime.Some? {
          formShown, progressShown := true, true;
          joinedShown, neededShown := Joined(doc.data), doc.data.requiredContacts;
          listeners := listeners + [doc.id];
        }
      } else {
        formShown, downloadShown, listShown, progressShown := false, false, false, false;
      }
    }

    /**
     * The participant listener of `listenToParticipants`: the local list is
     * rebuilt from the snapshot alone; the download section appears once the
     * goal is reached and is not hidden again here.
     */
    method OnParticipants(snapshot: seq<Participant>)
      modifies this`sessionParticipants, this`joinedShown, this`listShown, this`formShown, this`downloadShown
      ensures sessionParticipants == snapshot
      ensures joinedShown == |snapshot|
      ensures downloadShown == (old(downloadShown) || GoalReached(currentSession, |snapshot|))
      ensures formShown == (old(formShown) && !GoalReached(currentSession, |snapshot|))
      ensures listShown == (old(listShown) || |snapshot| > 0 || GoalReached(currentSession, |snapshot|))
    {
      sessionParticipants := [];
      var i := 0;
      while i < |snapshot|
        invariant 0 <= i <= |snapshot|
        invariant sessionParticipants == snapshot[..i]
        invariant formShown == old(formShown) && listShown == old(listShown) && downloadShown == old(downloadShown)
      {
        sessionParticipants := sessionParticipants + [snapshot[i]];
        i := i + 1;
      }
      assert snapshot[..i] == snapshot;
      var reached := GoalReached(currentSession, |sessionParticipants|);
      joinedShown := |sessionParticipants|;
      if |sessionParticipants| > 0 {
        listShown := true;
      }
      if reached {
        formShown := false;
        downloadShown := true;
        listShown := true;
      }
    }

    /**
     * `addParticipant`, with the raw form fields, the outcome of the IP lookup
     * and the server time of the write.
     */
    method AddParticipant(name: string, phone: string, lookup: Option<string>, now: Timestamp)
      returns (outcome: Registrar.RegisterOutcome)
      modifies db
      ensures var r := Registrar.Register(old(db.sessions), currentSessionRef, name, phone, lookup, now);
              outcome == r.outcome && db.sessions == r.store
    {
      var n, p := Registrar.Trim(name), Registrar.Trim(phone);
      if n == [] || p == [] {
        return Registrar.MissingField;
      }
      if currentSessionRef.None? || currentSessionRef.value >= |db.sessions| {
        return Registrar.NoSession;
      }
      var id := currentSessionRef.value;
      if Registrar.PhoneTaken(db.sessions[id], p) {
        return Registrar.DuplicatePhone;
      }
      var joining := Participant(n, p, now, Registrar.IpOrUnknown(lookup));
      var s := db.sessions[id];
      db.sessions := db.sessions[id := s.(participants := s.participants + [joining])];
      s := db.sessions[id];
      db.sessions := db.sessions[id := s.(joinedContacts := Registrar.Increment(s.joinedContacts))];
      outcome := Registrar.Registered(id);
    }

    /** `downloadVCF`: the export of the current local list (the file download is left out). */
    method DownloadVcf() returns (content: string)
      ensures content == Vcard.Vcf(sessionParticipants)
    {
      content := Vcard.BuildVcf(sessionParticipants);
    }
  }
}
