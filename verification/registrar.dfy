/**
 * Participant registration, the store side of `addParticipant` in script.js:
 * trim and validate the two fields, refuse a phone already registered in the
 * session, append one participant and add 1 to the session's counter.
 */
module Registrar {
  import opened Common
  import opened Documents

  /**
   * The code points `String.prototype.trim` removes: the ECMAScript WhiteSpace
   * (tab, vertical tab, form feed, space, no-break space, byte order mark and
   * the Unicode space separators) and LineTerminator characters.
   */
  predicate IsWhitespace(c: char)
  {
    || c == '\U{0009}' || c == '\U{000B}' || c == '\U{000C}' || c == '\U{0020}' || c == '\U{00A0}'
    || c == '\U{FEFF}' || c == '\U{1680}' || ('\U{2000}' <= c <= '\U{200A}') || c == '\U{202F}'
    || c == '\U{205F}' || c == '\U{3000}'
    || c == '\U{000A}' || c == '\U{000D}' || c == '\U{2028}' || c == '\U{2029}'
  }

  /** Drops the leading whitespace: what is left is a suffix of `s`. */
  function TrimStart(s: string): (r: string)
    ensures |r| <= |s| && r == s[|s| - |r|..]
    ensures forall k :: 0 <= k < |s| - |r| ==> IsWhitespace(s[k])
    ensures r != [] ==> !IsWhitespace(r[0])
  {
    if s != [] && IsWhitespace(s[0]) then TrimStart(s[1..]) else s
  }

  /** Drops the trailing whitespace: what is left is a prefix of `s`. */
  function TrimEnd(s: string): (r: string)
    ensures |r| <= |s| && r == s[..|r|]
    ensures forall k :: |r| <= k < |s| ==> IsWhitespace(s[k])
    ensures r != [] ==> !IsWhitespace(r[|r| - 1])
  {
    if s != [] && IsWhitespace(s[|s| - 1]) then TrimEnd(s[..|s| - 1]) else s
  }

  /** Every character of `t` is whitespace. */
  predicate AllWhitespace(t: string)
  {
    forall k :: 0 <= k < |t| ==> IsWhitespace(t[k])
  }

  /** `s` is `r` at offset `a` with nothing but whitespace before and after it. */
  predicate PaddedAt(s: string, r: string, a: int)
  {
    0 <= a <= |s| - |r| && r == s[a..a + |r|]
    && AllWhitespace(s[..a]) && AllWhitespace(s[a + |r|..])
  }

  /** `String.prototype.trim`. */
  function Trim(s: string): (r: string)
    ensures |r| <= |s|
    ensures r != [] ==> !IsWhitespace(r[0]) && !IsWhitespace(r[|r| - 1])
    ensures exists a :: PaddedAt(s, r, a)
  {
    TrimPadded(s);
    TrimEnd(TrimStart(s))
  }

  /** The trimmed text sits where the leading whitespace ends. */
  lemma TrimPadded(s: string)
    ensures PaddedAt(s, TrimEnd(TrimStart(s)), |s| - |TrimStart(s)|)
  {
    var t := TrimStart(s);
    var a := |s| - |t|;
    assert t == s[a..];
    InnerPadded(s, a, TrimEnd(t));
  }

  /** A prefix `r` of `s[a..]` whose rest is whitespace, after whitespace up to `a`, is padded there. */
  lemma InnerPadded(s: string, a: nat, r: string)
    requires a <= |s|
    requires forall k :: 0 <= k < a ==> IsWhitespace(s[k])
    requires |r| <= |s| - a && r == s[a..][..|r|]
    requires forall k :: |r| <= k < |s| - a ==> IsWhitespace(s[a..][k])
    ensures PaddedAt(s, r, a)
  {
    assert s[a..][..|r|] == s[a..a + |r|];
    assert s[a + |r|..] == s[a..][|r|..];
  }

  /** A trimmed field is empty exactly when the input held nothing but whitespace. */
  lemma TrimEmptyIff(s: string)
    ensures Trim(s) == [] <==> forall k :: 0 <= k < |s| ==> IsWhitespace(s[k])
  {
    if Trim(s) == [] {
      var a :| PaddedAt(s, Trim(s), a);
      forall k | 0 <= k < |s|
        ensures IsWhitespace(s[k])
      {
        if k < a {
          assert s[k] == s[..a][k];
        } else {
          assert s[k] == s[a..][k - a];
        }
      }
    }
  }

  /** Trimming a trimmed string changes nothing. */
  lemma TrimIdempotent(s: string)
    ensures Trim(Trim(s)) == Trim(s)
  {
    var r := Trim(s);
    if r != [] {
      assert TrimStart(r) == r;
      assert TrimEnd(r) == r;
    }
  }

  /** The IP lookup of `getIPAddress`: a failed lookup is stored as "unknown". */
  function IpOrUnknown(lookup: Option<string>): string
  {
    match lookup
    case Some(ip) => ip
    case None => "unknown"
  }

  /** `FieldValue.increment(1)`; on a missing field the store writes the operand. */
  function Increment(counter: Option<int>): Option<int>
  {
    match counter
    case Some(n) => Some(n + 1)
    case None => Some(1)
  }

  /** The point query `where('phone', '==', phone)` on the session's participants is non-empty. */
  predicate PhoneTaken(session: Session, phone: string)
  {
    exists k :: 0 <= k < |session.participants| && session.participants[k].phone == phone
  }

  /** Incrementing the stored counter raises the joined figure the pages read by exactly one. */
  lemma IncrementAddsOne(s: Session)
    ensures Increment(s.joinedContacts).Some?
    ensures Joined(s.(joinedContacts := Increment(s.joinedContacts))) == Joined(s) + 1
  {
  }

  /** After one more participant joins, a phone is taken exactly when it was taken before or is the newcomer's. */
  lemma PhoneTakenAfterJoin(s: Session, p: Participant, phone: string)
    ensures PhoneTaken(s.(participants := s.participants + [p]), phone)
            <==> PhoneTaken(s, phone) || p.phone == phone
  {
    var ps := s.participants + [p];
    if PhoneTaken(s, phone) {
      var k :| 0 <= k < |s.participants| && s.participants[k].phone == phone;
      assert ps[k] == s.participants[k];
    }
    if p.phone == phone {
      assert ps[|s.participants|] == p;
    }
    if PhoneTaken(s.(participants := ps), phone) {
      var k :| 0 <= k < |ps| && ps[k].phone == phone;
      if k < |s.participants| {
        assert s.participants[k] == ps[k];
      }
    }
  }

  /** No two participants of a session share a phone. */
  predicate DistinctPhones(ps: seq<Participant>)
  {
    forall i, j :: 0 <= i < j < |ps| ==> ps[i].phone != ps[j].phone
  }

  /** The counter agrees with the participants, and their phones are distinct. */
  predicate WellCounted(session: Session)
  {
    session.joinedContacts == Some(|session.participants|) && DistinctPhones(session.participants)
  }

  datatype RegisterOutcome = MissingField | NoSession | DuplicatePhone | Registered(id: SessionId)

  datatype RegisterResult = RegisterResult(outcome: RegisterOutcome, store: seq<Session>)

  /** The participant document a successful registration writes. */
  function Joining(name: string, phone: string, lookup: Option<string>, now: Timestamp): Participant
  {
    Participant(Trim(name), Trim(phone), now, IpOrUnknown(lookup))
  }

  /**
   * `addParticipant` against the session `ref` the page last saw. Without a
   * reference the query throws and the error is caught; nothing checks that the
   * session is still active.
   */
  function Register(store: seq<Session>, ref: Option<SessionId>, name: string, phone: string,
                    lookup: Option<string>, now: Timestamp): (r: RegisterResult)
    ensures r.outcome == MissingField <==> Trim(name) == [] || Trim(phone) == []
    ensures r.outcome == NoSession <==> Trim(name) != [] && Trim(phone) != [] && (ref.None? || ref.value >= |store|)
    ensures r.outcome == DuplicatePhone <==>
              Trim(name) != [] && Trim(phone) != [] && ref.Some? && ref.value < |store|
              && PhoneTaken(store[ref.value], Trim(phone))
    ensures !r.outcome.Registered? ==> r.store == store
    ensures r.outcome.Registered? ==>
              && Some(r.outcome.id) == ref
              && |r.store| == |store|
              && (forall j :: 0 <= j < |store| && j != r.outcome.id ==> r.store[j] == store[j])
              && r.store[r.outcome.id] == store[r.outcome.id].(
                   participants := store[r.outcome.id].participants + [Joining(name, phone, lookup, now)],
                   joinedContacts := Increment(store[r.outcome.id].joinedContacts))
  {
    if Trim(name) == [] || Trim(phone) == [] then RegisterResult(MissingField, store)
    else if ref.None? || ref.value >= |store| then RegisterResult(NoSession, store)
    else if PhoneTaken(store[ref.value], Trim(phone)) then RegisterResult(DuplicatePhone, store)
    else
      var id := ref.value;
      var joined := store[id].(participants := store[id].participants + [Joining(name, phone, lookup, now)],
                               joinedContacts := Increment(store[id].joinedContacts));
      RegisterResult(Registered(id), store[id := joined])
  }

  /** Appending a participant whose phone is not yet taken keeps the phones distinct. */
  lemma AppendKeepsDistinct(s: Session, p: Participant)
    requires DistinctPhones(s.participants) && !PhoneTaken(s, p.phone)
    ensures DistinctPhones(s.participants + [p])
  {
    var ps := s.participants + [p];
    forall i, j | 0 <= i < j < |ps|
      ensures ps[i].phone != ps[j].phone
    {
      assert ps[i] == s.participants[i];
      if j < |s.participants| {
        assert ps[j] == s.participants[j];
      }
    }
  }

  /** A registration keeps every session's counter equal to its participant count, phones distinct. */
  lemma RegisterKeepsWellCounted(store: seq<Session>, ref: Option<SessionId>, name: string, phone: string,
                                 lookup: Option<string>, now: Timestamp)
    requires forall i :: 0 <= i < |store| ==> WellCounted(store[i])
    ensures var r := Register(store, ref, name, phone, lookup, now).store;
            forall i :: 0 <= i < |r| ==> WellCounted(r[i])
  {
    var r := Register(store, ref, name, phone, lookup, now);
    if r.outcome.Registered? {
      var id := r.outcome.id;
      var p := Joining(name, phone, lookup, now);
      AppendKeepsDistinct(store[id], p);
      assert WellCounted(r.store[id]);
    }
  }

  /**
   * Once a phone is registered in a session, a second registration of the same
   * trimmed phone there is refused and leaves the store unchanged.
   */
  lemma SecondRegistrationRefused(store: seq<Session>, id: SessionId, name: string, phone: string,
                                  lookup: Option<string>, now: Timestamp,
                                  name2: string, phone2: string, lookup2: Option<string>, now2: Timestamp)
    requires Register(store, Some(id), name, phone, lookup, now).outcome == Registered(id)
    requires Trim(name2) != [] && Trim(phone2) == Trim(phone)
    ensures var s := Register(store, Some(id), name, phone, lookup, now).store;
            Register(s, Some(id), name2, phone2, lookup2, now2) == RegisterResult(DuplicatePhone, s)
  {
    var s := Register(store, Some(id), name, phone, lookup, now).store;
    var ps := s[id].participants;
    assert ps[|ps| - 1] == Joining(name, phone, lookup, now);
    assert PhoneTaken(s[id], Trim(phone2));
    var again := Register(s, Some(id), name2, phone2, lookup2, now2);
    assert again.outcome == DuplicatePhone;
  }

  /** The page registers into the session it references even after that session has ended. */
  lemma RegisterIgnoresEnded(store: seq<Session>, id: SessionId, name: string, phone: string,
                             lookup: Option<string>, now: Timestamp)
    requires id < |store| && !store[id].isActive
    requires Trim(name) != [] && Trim(phone) != [] && !PhoneTaken(store[id], Trim(phone))
    ensures Register(store, Some(id), name, phone, lookup, now).outcome == Registered(id)
    ensures !Register(store, Some(id), name, phone, lookup, now).store[id].isActive
  {
  }

  /**
   * A failed IP lookup never blocks a registration: the outcome is the one a
   * successful lookup would give, and the stored address is "unknown".
   */
  lemma LookupFailureStillRegisters(store: seq<Session>, ref: Option<SessionId>, name: string, phone: string,
                                    ip: string, now: Timestamp)
    ensures Register(store, ref, name, phone, None, now).outcome == Register(store, ref, name, phone, Some(ip), now).outcome
    ensures var r := Register(store, ref, name, phone, None, now);
            r.outcome.Registered? ==> Last(r.store[r.outcome.id].participants).ipAddress == "unknown"
  {
  }

  /** The most recent participant of a non-empty list. */
  function Last(ps: seq<Participant>): Participant
    requires ps != []
  {
    ps[|ps| - 1]
  }
}
