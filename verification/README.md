# Event check-in: session lifecycle, registration and contact export

A Dafny model of the client-side core of a small event check-in tool. An admin
page (admin.js) starts a *session* with a target number of contacts and ends it;
an attendee page (script.js) registers a name and phone number into the running
session, follows the live participant list, declares the goal reached once the
list is long enough, and exports the participants as vCard 3.0 text.

The hosted document store is replaced by an in-memory one: `Documents.Directory`
holds `sessions: seq<Session>`, each session holding its participants in
insertion order, and a session is identified by its position (sessions are
never deleted). Every `await` is one sequential step. Server timestamps are a
`now` parameter; the signed-in admin, the answer to the confirmation dialog,
the parsed target (`None` for NaN) and the result of the IP lookup are
parameters too.

Structure:

- `common.dfy` (`Common`): `Option`, timestamps, session ids, the admin identity.
- `documents.dfy` (`Documents`): session and participant documents, the
  `where('isActive', '==', true)` query, the store class, the `|| 0` / `|| 100`
  readings of the two counters.
- `lifecycle.dfy` (`Lifecycle`): what `startSession` and `endSession` do to the
  store, as functions, with the single-active-session lemmas.
- `registrar.dfy` (`Registrar`): `String.prototype.trim`, the IP fallback, what
  `addParticipant` does to the store, and the counter/duplicate lemmas.
- `vcard.dfy` (`Vcard`): the export of `downloadVCF`, the loop that builds it,
  a reader for it and the round trip.
- `admin_view.dfy` (`AdminView`): the admin page's figures and tables, and
  `AdminConsole`, a class holding `currentSessionRef`, `participantsRef`, the
  participant subscription slot and the button flags, whose methods are the
  page's handlers and buttons.
- `attendee_view.dfy` (`AttendeeView`): the goal check and `AttendeePage`, a
  class holding `currentSession`, `currentSessionRef`, `sessionParticipants`
  and the shown/hidden sections.
- `system.dfy` (`System`): any sequence of starts, ends and registrations
  against the store, and the invariants the two pages keep between them.

The model follows the code as written, including these points:

- Ending a session checks only that `currentSessionRef` is set (admin.js:309);
  it does not check that the session is still active, so ending an ended
  session succeeds again and overwrites `endTime`.
- Registration does not check that the session is still active
  (script.js:94-122), and the attendee page keeps its last session reference
  after the session ends (script.js:83-92 does not clear it).
- The attendee page never cancels a participant listener (script.js:134): each
  active-session snapshot registers one more. The admin page does cancel
  (admin.js:179-183, 141-144), so it has at most one.
- The goal check never turns the download section off again; only the
  no-active-session handler hides it.
- The export ends lines with a bare line feed and escapes nothing.

## Model

| member | source | states |
|---|---|---|
| `Documents.ActiveQuery` | admin.js:117-122 | the active-session query returns exactly the active sessions, each once, in store order; it is empty exactly when no session is active |
| `Documents.SingleActiveIffQuery` | admin.js:281-288 | at most one session is active exactly when the active-session query returns at most one document |
| `Lifecycle.Start` | admin.js:269-298 | a target that is NaN, 0 or below 1 is rejected; otherwise any active session makes the start refused; both refusals leave the store unchanged; a start appends exactly one session with the target, `joinedContacts = 0`, `isActive = true`, the start time and the admin's uid and email, and keeps every earlier session |
| `Lifecycle.TargetRejectedIff` | admin.js:272 | the guard on the parsed target rejects exactly the targets that are not a number of at least 1 |
| `Lifecycle.NewSessionReadings` | admin.js:160-161 | a session as the start writes it reads as its own target and zero joined: the defaults of 0 joined and 100 required never apply to it |
| `Lifecycle.StartLeavesOneActive` | admin.js:281-298 | from a store with no active session, a successful start leaves exactly one active session, the new one |
| `Lifecycle.StartKeepsSingleActive` | admin.js:281-298 | starting never produces a second active session |
| `Lifecycle.End` | admin.js:308-321 | no reference, or a declined confirmation, changes nothing; otherwise the referenced session alone gets `isActive = false` and a new `endTime`, its counters and participants untouched; a reference to a missing document is rejected with the store unchanged |
| `Lifecycle.EndKeepsSingleActive` | admin.js:318-321 | ending never produces a second active session |
| `Lifecycle.EndOfActiveLeavesNone` | admin.js:318-321 | ending the one running session leaves no active session |
| `Lifecycle.EndRestampsEndedSession` | admin.js:309-321 | only the reference is checked: ending an already ended session succeeds and overwrites its `endTime` |
| `Registrar.TrimStart` | script.js:95-96 | what is left is a suffix of the input, everything dropped is whitespace, and it does not start with whitespace |
| `Registrar.TrimEnd` | script.js:95-96 | what is left is a prefix of the input, everything dropped is whitespace, and it does not end with whitespace |
| `Registrar.Trim` | script.js:95-96 | the trimmed field is the input with some whitespace removed from the front and some from the back and nothing else: a contiguous piece of it with only whitespace before and after it, and with no whitespace at either end |
| `Registrar.TrimPadded` | script.js:95-96 | the trimmed field starts exactly where the leading whitespace ends, and everything after it is whitespace |
| `Registrar.TrimEmptyIff` | script.js:95-101 | a trimmed field is empty exactly when the raw field is all whitespace, so such input is refused |
| `Registrar.TrimIdempotent` | script.js:95-96 | trimming twice gives what trimming once gives |
| `Registrar.Register` | script.js:94-122 | an empty trimmed name or phone is refused, then a missing session reference, then a trimmed phone already in the session; each refusal leaves the store unchanged; a success appends exactly one participant with the trimmed name and phone, the join time and the looked-up address or "unknown", adds exactly 1 to that session's counter, and changes no other session |
| `Registrar.IncrementAddsOne` | script.js:120-122 | the counter increment always leaves a stored counter and raises the joined figure the pages read by exactly one, also when the counter was missing |
| `Registrar.PhoneTakenAfterJoin` | script.js:105-106 | after one more participant joins, a phone counts as already registered exactly when it did before or it is the newcomer's |
| `Registrar.AppendKeepsDistinct` | script.js:105-115 | adding a participant whose phone is not already registered keeps the session's phones distinct |
| `Registrar.RegisterKeepsWellCounted` | script.js:105-122 | if every session's counter equals its participant count and its phones are distinct, a registration keeps it so |
| `Registrar.SecondRegistrationRefused` | script.js:105-109 | after a phone is registered in a session, registering the same trimmed phone there again is refused and leaves the store unchanged |
| `Registrar.RegisterIgnoresEnded` | script.js:94-122 | a registration into an ended session succeeds and the session stays ended |
| `Registrar.LookupFailureStillRegisters` | script.js:215-222 | a failed IP lookup gives the same outcome as a successful one, and the stored address is "unknown" |
| `Vcard.VcfAppend` | script.js:194-202 | the export of `a + b` is the export of `a` followed by the export of `b` |
| `Vcard.VcfCardAt` | script.js:194-202 | the card of participant `k` sits after the cards of all participants before it and before those of all after it |
| `Vcard.BuildVcf` | script.js:193-202 | the loop's text is the in-order concatenation of one card per participant; an empty list gives the empty string |
| `Vcard.CardReadsBack` | script.js:197-201 | a card whose fields hold no line feed reads back as its name and phone, leaving the text after it |
| `Vcard.CardLines` | script.js:197-201 | a card is the five lines `BEGIN:VCARD`, `VERSION:3.0`, `FN:` and the name, `TEL;TYPE=CELL:` and the phone, and `END:VCARD`, each ended by a bare line feed |
| `Vcard.VcfReadsBack` | script.js:194-202 | an export of participants whose fields hold no line feed reads back as their names and phones, in list order |
| `Vcard.LineFeedInNameBreaksExport` | script.js:197-201 | without escaping, a name with a line feed at any position does not read back from its export |
| `AdminView.Info` | admin.js:155-169 | the start time is the session's; joined is the stored counter, or 0 when absent; required is the stored target, or 100 when it is absent or 0; remaining is required minus joined, and required is never 0 |
| `AdminView.HistoryRowOf` | admin.js:241-259 | the status reads "Active" exactly when the session is active and "Ended" otherwise; the end column reads "Active" exactly when there is no end time and shows the end time otherwise; target and joined use the panel's defaults |
| `AdminView.OrNAShows` | admin.js:204-207 | a text cell is never empty: it shows the field when the field is non-empty and "N/A" otherwise |
| `AdminView.RowOf` | admin.js:198-208 | an empty name, phone or address shows as "N/A", a non-empty one as itself; the join time is passed through |
| `AdminView.ParticipantTable` | admin.js:186-213 | one row per participant document in snapshot order, and a count equal to the number of documents |
| `AdminView.HistoryTable` | admin.js:231-261 | one history row per session document in snapshot order |
| `AdminView.Cancel` | admin.js:179-181 | cancelling a live listener removes exactly one registration of it and keeps every other registration (as a multiset); cancelling one that is not live changes nothing |
| `AdminView.AdminConsole.constructor` | admin.js:22-26 | no session reference, no subscription, empty panel and tables |
| `AdminView.AdminConsole.AtMostOneListener` | admin.js:179-183 | the admin page has at most one live participant listener |
| `AdminView.AdminConsole.LoadParticipants` | admin.js:176-183 | the previous participant listener is cancelled before the new one is registered, so the one live listener is the new one |
| `AdminView.AdminConsole.OnActiveSessions` | admin.js:118-145 | start is disabled exactly when the snapshot has an active session and end enabled exactly then; with one, the reference, the participant subscription and the panel follow its first document; without one, the reference and the subscription slot are cleared, no listener stays live, and panel and table are reset |
| `AdminView.AdminConsole.Follow` | admin.js:121-130 | the branch for an active session: reference, subscription and panel follow the document, start disabled, end enabled |
| `AdminView.AdminConsole.Reset` | admin.js:131-145 | the branch for no active session: reference and subscription cleared, panel and table reset, start enabled, end disabled |
| `AdminView.AdminConsole.OnParticipants` | admin.js:186-213 | the table is rebuilt from the snapshot alone, with its count |
| `AdminView.AdminConsole.OnHistory` | admin.js:231-261 | the history table is rebuilt from the snapshot alone |
| `AdminView.AdminConsole.StartSession` | admin.js:269-306 | the outcome and the new store are those of `Lifecycle.Start` on the old store |
| `AdminView.AdminConsole.EndSession` | admin.js:308-330 | the outcome and the new store are those of `Lifecycle.End` with the page's current reference |
| `AttendeeView.GoalReached` | script.js:163-166 | the goal is reached exactly when a session is known, it has a target, and the count is at least that target |
| `AttendeeView.GoalStaysReached` | script.js:164 | once reached for a count, the goal is reached for every larger count |
| `AttendeeView.AttendeePage.constructor` | script.js:16-22 | no session, no reference, an empty list and no listeners |
| `AttendeeView.AttendeePage.OnActiveSessions` | script.js:33-46 | with an active session, the page remembers its first document and reference; when that document has a start time it also shows form and progress with the document's figures and registers one more participant listener without cancelling any, and otherwise (where `updateSessionUI` throws) it changes nothing else; without an active session, it hides the sections and keeps its old session, reference and figures |
| `AttendeeView.AttendeePage.OnParticipants` | script.js:133-167 | the local list becomes exactly the snapshot, in snapshot order; the download section is shown (and the form hidden) when the goal is reached, and otherwise keeps its state |
| `AttendeeView.AttendeePage.AddParticipant` | script.js:94-131 | the outcome and the new store are those of `Registrar.Register` with the page's current reference |
| `AttendeeView.AttendeePage.DownloadVcf` | script.js:193-202 | the exported text is the export of the current local list |
| `System.StartKeepsInvariant` | admin.js:281-298 | a start keeps the store invariant: at most one active session, and every session has a start time, a target of at least 1, is active exactly while it has no end time, and has a counter equal to its participant count with distinct phones |
| `System.EndKeepsInvariant` | admin.js:318-321 | an end keeps the store invariant |
| `System.RegisterKeepsInvariant` | script.js:105-122 | a registration keeps the store invariant |
| `System.ApplyKeepsInvariant` | admin.js:269-330 | every admin or attendee action keeps the store invariant |
| `System.RunKeepsInvariant` | admin.js:269-330 | any sequence of starts and ends (admin.js:269-330) and registrations (script.js:94-122) keeps the store invariant |
| `System.ReachableStoresAreWellFormed` | admin.js:291-298 | from an empty store, with sessions created at `joinedContacts = 0`, every reachable store keeps the invariant: counters equal participant counts and phones stay distinct per session |
| `System.StartEvolves` | admin.js:291-298 | a start keeps every earlier session exactly as it was (and so satisfies `Evolves`) |
| `System.EndEvolves` | admin.js:318-321 | an end adds no session and leaves every session's participants and counter as they were; it changes no start, target or creator and reopens nothing |
| `System.RegisterEvolves` | script.js:112-122 | a registration adds no session and leaves every session other than the referenced one exactly as it was; a session gains at most one participant, and when it gains one its joined figure goes up by exactly 1 |
| `System.ApplyEvolves` | admin.js:269-330 | one start, end (admin.js:269-330) or registration (script.js:94-122) only adds sessions, never changes a session's start, target or creator, only appends participants, and never reopens an ended session |
| `System.RunEvolves` | admin.js:269-330 | the same holds across any sequence of starts, ends and registrations (script.js:94-122) |
| `System.EndedStaysEnded` | admin.js:318-321 | an ended session stays ended whatever happens afterwards |
| `System.PanelOfWellFormed` | admin.js:160-167 | on a well-formed session the panel's target is the one set, joined is the participant count and remaining their difference |
| `System.HistoryLabelsAgree` | admin.js:244-256 | on a well-formed session the status column and the end column read "Active" together |
| `System.GoalMatchesCounter` | script.js:164 | when the local list is a well-formed session's participants, the goal check agrees with the session's counter and target |

## Left out

- Sign-in, sign-out and the auth-state listener (admin.js:51-111): the identity
  service is external; the signed-in admin is a parameter of `StartSession`.
- DOM rendering, templates, styling, the loader timer, alerts, the success
  modal and the form reset: panels and tables are values, alerts are outcomes.
- Query mechanics of the store: the participant and history snapshots
  (`orderBy`, `limit(10)`) are parameters of the handlers. The active-session
  query has no `orderBy`, so the hosted store returns its documents by document
  id, and the ids `add()` generates are random; returning them in store order
  (so that `docs[0]` is the earliest session) is a choice of this model.
- Server timestamps are the `now` parameter; a timestamp still pending on the
  client is modelled only where it changes control flow (a session without a
  `startTime` makes the attendee handler throw in `updateSessionUI`).
- The request to the IP service: only its success or failure is modelled.
- The Blob, object URL and anchor click of the download, and the dated file name.
- Percentages and `Math.round`/`Math.min` progress figures (floating point).
- `parseInt` itself: the start takes the already parsed value, `None` for NaN.
- Transport and service failures caught by the `try`/`catch` blocks, the races
  between the active-session check and the create and between the duplicate
  check and the insert, and a failure between the participant write and the
  counter update: the model is sequential and every store call succeeds,
  except an update of a document that does not exist (`Lifecycle.End`).
- `Registrar.Register`: a reference to a session that is not in the store is
  refused with nothing written; the hosted store would write the participant
  and then reject the counter update.
- `Registrar.Increment`: an increment of a missing counter writes 1, as the
  store's increment does; the model does not cover other field types.
- The session-history subscription slot (`unsubscribeHistory`, admin.js:224-226)
  and the re-subscription of `loadAdminData` on every sign-in: only the
  history table built from a snapshot is modelled.
- The initial state of the two admin buttons comes from the page markup, which
  is not part of this model; the constructor starts with both enabled.
- The initial state of the attendee page's sections (all hidden) comes from the
  page markup, which is not part of this model; the constructor starts with
  every section hidden.
- The attendee page's `showDownloadSection` count text and the participant
  list items are display only.
