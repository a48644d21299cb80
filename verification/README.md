# Collaborative document editor, modelled in Dafny

This project models the logic of a real-time collaborative text editor. It
has three parts:

- **The relay.** A Node.js socket server. It keeps a registry of which socket
  edits which document (`activeDocuments`, `userSockets`), forwards edits,
  cursor moves and renames to the other members of a document's room, and
  writes content and titles to the document store.
- **The REST routes.** They handle documents (list, read, create, rename or
  publish, delete, collaborators) and accounts (register, login, guest
  accounts, profile, search, token check, deletion).
- **The browser client.** It covers the sign-in reducer, the socket
  provider's collaborator list and send guards, the registration form's
  checks, the dashboard's search, delete and date labels, the editor's echo
  suppression and "last saved" label, and the header's theme toggle and
  initials.

Each source module is one Dafny module.

- The relay (`Server`) is a class `Relay`. Its handlers change the two
  registries, the store and the outbox of emitted messages step by step. Each
  handler is proved to agree with a function on the relay's state, and the
  properties are lemmas about those functions.
- The REST routes are functions from the stored collection and the request to
  the response and the new collection. Each of the two collections is then a
  class (`DocumentRoutes.DocumentCollection`, `UserRoutes.AccountStore`) whose
  methods change their field in place, as the routes change and save the
  loaded record. These methods are proved to agree with the functions.
- The editor's session state is a class, `Editor.EditorSession`. Its handlers
  flip the `isUpdatingFromSocket` flag and schedule timers. The remaining
  client code is pure functions.

External parts of the system are parameters of the model:

- The clock is a number of milliseconds.
- Fresh ids (`uuidv4`) are given by the caller.
- The store's success or failure is a boolean.
- bcrypt is modelled by the password a hash was made from.
- A JSON Web Token is modelled by the account id it was signed for.
- Verifying a token is a function parameter.
- Applying a Quill delta is a function parameter.

## Model

| member | source | states |
|---|---|---|
| Server.FetchOrCreate | server.js:55-64 | a document missing from the store is created titled "Untitled Document" with empty content; a stored one is loaded unchanged |
| Server.JoinKeepsInvariant | server.js:50-100 | a join keeps the registry invariant: every registered socket is listed, with its user, in the room of its document, and no room is empty |
| Server.JoinFailureOnlyReportsError | server.js:96-99 | when the store fetch or create fails, the joiner alone gets "Failed to join document" and nothing is registered |
| Server.JoinRegisters | server.js:70-76 | after a join the socket is in the document's room with cursor 0 and `userSockets` records the document and user |
| Server.JoinMessages | server.js:79-94 | the joiner alone gets the stored content, title and lastModified; the others get `user-joined`; the whole room gets the participant list |
| Server.JoinAppendsNewcomer | server.js:74-75 | a socket new to a room is listed after those already there (Map insertion order) |
| Server.JoinLeavesOthersAlone | server.js:70-76 | a join changes no other room and no other socket's record |
| Server.OutsidersAreIgnored | server.js:107 | a text, cursor or title change from a socket not registered for that document changes nothing and emits nothing |
| Server.TextChangeRelaysThenOverwrites | server.js:107-125 | a member's edit goes to the rest of the room tagged with its user; the stored content is overwritten with no version check; a failed save is dropped |
| Server.CursorChangeMovesOnlyTheSender | server.js:133-145 | a member's cursor move changes only its own position, stores nothing and goes to the rest of the room |
| Server.CursorChangeKeepsInvariant | server.js:129-147 | a cursor move keeps the registry invariant |
| Server.TitleChangeStoresThenRelays | server.js:154-165 | a rename is stored first and relayed, carrying only the title, only when the write succeeded |
| Server.DisconnectUnknownIsNoop | server.js:173-174 | the disconnect of an unregistered socket changes nothing |
| Server.DisconnectCleansUp | server.js:173-200 | a disconnect drops the socket's record and participant, sends `user-left` and the remaining list, and removes a room left empty |
| Server.DisconnectKeepsInvariant | server.js:170-201 | a disconnect keeps the registry invariant |
| Server.StepKeepsInvariant | server.js:46-201 | every event keeps the invariant and only appends to what was sent |
| Server.RunKeepsInvariant | server.js:46-201 | any sequence of events keeps the invariant and only appends to what was sent |
| Server.JoinThenDisconnect | server.js:70-76 | a socket that joins and then disconnects leaves both registries as they were |
| Server.JoinThenDisconnectSockets | server.js:76 | join then disconnect restores `userSockets` |
| Server.JoinThenDisconnectRooms | server.js:180-196 | join then disconnect restores `activeDocuments` |
| Server.SecondJoinSeesStoredDocument | server.js:55-64 | a second joiner of a document the first join created receives what the store holds |
| Server.LastWriteWins | server.js:117-121 | of two edits the later is what the store keeps; nothing is merged |
| Server.SwitchingDocumentsLeavesStaleEntry | server.js:69-76 | a socket that joins a second document without disconnecting stays listed in the first room, and its disconnect clears only the second |
| Server.TwoUserSession | server.js:50-201 | two users open a new document and the first types: the second receives the edit, the store holds it, and after the second leaves only the first is listed |
| Server.TwoJoinsRoom | server.js:74-75 | after a first join, a second socket is listed after the first |
| Server.FirstJoin | server.js:70-76 | the registries after one socket joins a document on a fresh relay |
| Server.Relay.constructor | server.js:42-43 | the relay starts with empty document and socket registries over the given store, and its invariant holds |
| Server.Relay.HandleJoin | server.js:50-100 | the join handler, changing the registries, store and outbox in place, agrees with the join function and keeps the invariant |
| Server.Relay.HandleTextChange | server.js:103-126 | the text-change handler agrees with its function and keeps the invariant |
| Server.Relay.HandleCursorChange | server.js:129-147 | the cursor handler, updating the participant's position in place, agrees with its function and keeps the invariant |
| Server.Relay.HandleTitleChange | server.js:150-167 | the title handler agrees with its function and keeps the invariant |
| Server.Relay.HandleDisconnect | server.js:170-201 | the disconnect handler agrees with its function and keeps the invariant |
| OrderedMap.Get | server.js:134-136 | `Map.get`: a value exactly for a present key, the one stored with it |
| OrderedMap.Values | server.js:93 | `Array.from(map.values())` lists the values in key order |
| OrderedMap.Put | server.js:75 | `Map.set`: the key maps to the new value, other keys are unchanged, and a new key goes last |
| OrderedMap.PutInPlace | server.js:75 | setting an existing key keeps every key in its place |
| OrderedMap.Remove | server.js:180 | `Map.delete`: the key is gone and the other keys keep their values and their order |
| OrderedMap.RemovePut | server.js:75-180 | deleting a key just added restores the map |
| DocumentRoutes.Find | routes/documents.js:42 | `findById` finds the document with that id, or reports that none has it |
| DocumentRoutes.AdminCanRead | routes/documents.js:51-53 | whoever passes the admin check (owner or admin collaborator) also passes the read check |
| DocumentRoutes.ListedIsReadable | routes/documents.js:17-23 | the list query's owner/collaborator/public condition, on the stored ids, is exactly `HasAccess`, the read check the model's GET /:id applies (the route as written compares populated records, see Findings) |
| DocumentRoutes.ListedOf | routes/documents.js:17-23 | the listed documents are exactly the stored ones the user may read |
| DocumentRoutes.InsertByDate | routes/documents.js:24 | inserting by date keeps newest-first order and the same documents |
| DocumentRoutes.SortNewestFirst | routes/documents.js:24 | the sort orders newest first and is a permutation (the order among equal times is the model's choice) |
| DocumentRoutes.ListDocuments | routes/documents.js:9-34 | 400 without a user id; otherwise exactly the readable documents, newest first |
| DocumentRoutes.GetDocument | routes/documents.js:37-64 | 404 exactly for an unknown id, 403 exactly without read access (public, owner or listed collaborator, on the stored ids), else the document |
| DocumentRoutes.GetDocumentAsWritten | routes/documents.js:42-53 | the read check as the route runs it on the populated record: 404 exactly for an unknown id, 403 exactly when the document is private and is not an ownerless one requested without a user id |
| DocumentRoutes.PopulatedCheckRefusesMembers | routes/documents.js:42-53 | as written, the owner and every collaborator of a private document get 403, while the check on stored ids lets them read it |
| DocumentRoutes.OrDefault | routes/documents.js:78-79 | `x || default`: a missing or empty string gives the default |
| DocumentRoutes.CreateDefaults | routes/documents.js:67-96 | 400 without a user id; success exactly for a fresh id; a new document has the given non-empty title or else "Untitled Document", the given non-empty content or else the empty string, the requester as owner, no collaborators, the time, a title the save accepts, and is public only when asked; a refusal changes nothing |
| DocumentRoutes.CreatorHasAllRights | routes/documents.js:76-83 | the creator may read, administer and delete the new document |
| DocumentRoutes.Replace | routes/documents.js:121-124 | saving a loaded document replaces it and nothing else |
| DocumentRoutes.UpdateChangesOnlyGivenFields | routes/documents.js:99-135 | 404 for an unknown document, 403 without admin access, 500 when the title it would leave (given, or stored) is empty because the schema requires a title; success exactly for the owner or an admin with a non-empty resulting title; it changes title and visibility only when given and stamps the time; a refused update changes nothing |
| DocumentRoutes.RemoveAt | routes/documents.js:153 | a deletion removes that document and keeps the others in order |
| DocumentRoutes.OnlyOwnerDeletes | routes/documents.js:138-159 | a delete succeeds exactly for an existing document and its owner |
| DocumentRoutes.OwnerlessDeletedWithoutUserId | routes/documents.js:149 | a document the relay created has no owner, so a delete request without a user id removes it and one with a user id is refused |
| DocumentRoutes.ParsePermission | routes/documents.js:201 | `permission || 'write'`: a missing or empty permission or "write" gives write, "read" read, "admin" admin, and any other string nothing (the enum check that fails the save) |
| DocumentRoutes.AddAppendsOneEntry | routes/documents.js:189-215 | for a found document, an admin and a registered email: an account already listed gets 400; a permission outside the enum or an empty stored title gets 500; success exactly otherwise, appending one entry holding the account and the parsed permission, with nothing else changed but the time |
| DocumentRoutes.AddCollaboratorRefusals | routes/documents.js:162-187 | 404 for an unknown document, 403 without admin access, 500 for a missing email, 404 for an email nobody registered; a refusal changes nothing, and a success passed every one of these checks |
| DocumentRoutes.AddTwiceRefused | routes/documents.js:189-196 | adding the same account twice: the second request gets 400 |
| DocumentRoutes.Without | routes/documents.js:241-243 | the filter keeps exactly the entries of other users |
| DocumentRoutes.WithoutAppended | routes/documents.js:241-243 | removing a user just appended restores the list |
| DocumentRoutes.RemoveDropsEveryEntry | routes/documents.js:218-256 | 403 unless the requester is an admin or removes themself; 500 when the stored title is empty; success exactly otherwise, dropping every entry of that user, keeping the others and changing nothing else but the time |
| DocumentRoutes.AddThenRemove | routes/documents.js:162-243 | adding and then removing a new collaborator restores the collaborator list |
| DocumentRoutes.DocumentCollection.Create | routes/documents.js:67-96 | the in-place create agrees with the create function |
| DocumentRoutes.DocumentCollection.Update | routes/documents.js:99-135 | the in-place update, including the save's refusal of an empty title, agrees with the update function |
| DocumentRoutes.DocumentCollection.Delete | routes/documents.js:138-159 | the in-place delete agrees with the delete function |
| DocumentRoutes.DocumentCollection.AddCollaboratorTo | routes/documents.js:162-215 | the in-place `push` and save agrees with the add function |
| DocumentRoutes.DocumentCollection.RemoveCollaboratorFrom | routes/documents.js:218-256 | the in-place filter and save agrees with the remove function |
| UserRoutes.FindBy | routes/users.js:30 | the lookup finds an account matching id and email, or reports that none matches |
| UserRoutes.RegisterValidates | routes/users.js:16-70 | a missing (falsy) field gets 400 "All fields are required"; with all fields present a password under 6 characters gets 400 "Password must be at least 6 characters"; a success means the lower-cased email was free and one account was appended: a non-guest under the new id, the lower-cased email and the default preferences, whose password compares equal, returned with a session; a refusal leaves the accounts unchanged |
| UserRoutes.RegisterChecksFields | routes/users.js:21-45 | with all fields present and a long enough password: 400 exactly when the lower-cased email is taken, 500 exactly when it is free but the id is already stored, and success exactly when the email is free and the id fresh |
| UserRoutes.RegisterRefusesTakenEmail | routes/users.js:30-33 | an email taken under any capitalisation is refused |
| UserRoutes.LoginHidesWhichCheckFailed | routes/users.js:73-120 | an unknown email and a wrong password get the same 401; a login succeeds exactly with the account's password and only updates `lastActive` |
| UserRoutes.GuestsCannotLogIn | models/User.js:81-84 | `comparePassword` refuses every guest, so no login as a guest succeeds |
| UserRoutes.RegisterThenLogin | routes/users.js:30-95 | a freshly registered user can log in with the same password and any capitalisation of the email |
| UserRoutes.GuestName | routes/users.js:127 | `name || Guest_<now>` |
| UserRoutes.GuestDefaults | routes/users.js:123-162 | a guest is stored as `guest_<id>@temp.com`, named `Guest_<now>` unless a name is given, with no password, and signed in |
| UserRoutes.GuestNamesDiffer | routes/users.js:127 | unnamed guests created at different times get different names |
| UserRoutes.GetProfile | routes/users.js:165-183 | 400 without a user id, 404 for an unknown one, and for a known one success with that account's data |
| UserRoutes.UpdateProfileTouchesOnlyTheUser | routes/users.js:186-227 | no user id gets 400 and an unknown one 404; for a known user the save fails exactly when the merged preferences hold a theme outside light/dark; a failure changes nothing; a success replaces only the requesting account by the merged one and returns its data |
| UserRoutes.OnlyAnInvalidThemeFailsTheSave | routes/users.js:202-206 | for a known user whose stored theme is valid, the update succeeds exactly when no preferences are sent or the ones sent are valid |
| UserRoutes.MergeRules | routes/users.js:199-204 | a non-empty name replaces the name, a given avatar (even empty) the avatar, and the given preferences are spread over the stored ones |
| UserRoutes.MergeIdempotent | routes/users.js:199-204 | the same profile update twice gives the same account as once |
| UserRoutes.Hits | routes/users.js:238-248 | the matches are exactly the non-guests whose name or email contains the query, ignoring case |
| UserRoutes.HitsAppend | routes/users.js:238-248 | the matches keep the stored order: accounts in two parts are searched part by part, and one account matches exactly when it is a search hit |
| UserRoutes.Limit | routes/users.js:250 | `.limit(n)`: 0 means no limit, a negative limit counts as its magnitude |
| UserRoutes.SearchExcludesGuests | routes/users.js:230-257 | a missing query or one under 2 characters, and only those, gets 400; otherwise the result is the prefix of the matches of length `min(matches, limit)` (limit 10 by default, its magnitude when negative, no cut for 0), holding every match when they fit; no guest among them, each matching the query in its lower-cased name or email |
| UserRoutes.RemoveFirst | routes/users.js:262 | `replace('Bearer ', '')` leaves the length alone or shortens it by exactly the pattern |
| UserRoutes.RemoveFirstCutsFirst | routes/users.js:262 | when the pattern occurs, exactly its first occurrence is cut out and the characters around it are kept in order |
| UserRoutes.RemoveFirstWithoutPattern | routes/users.js:262 | a string in which the pattern does not occur is left unchanged |
| UserRoutes.VerifyOutcomes | routes/users.js:260-291 | no header, or a header that is only the prefix, gets 401 "No token provided"; "Invalid token" comes exactly when a non-empty token fails verification or names no account; a success is the data of the account the token was signed for |
| UserRoutes.DeletePasswordRule | routes/users.js:294-326 | a non-guest is deleted only with its own password (missing 400, wrong 401); a guest needs none; the deletion removes exactly that account |
| UserRoutes.AccountStore.UpdateProfileOf | routes/users.js:194-206 | the in-place field assignments and save agree with the profile-update function |
| UserRoutes.AccountStore.LogIn | routes/users.js:83-95 | the in-place `lastActive` update agrees with the login function |
| UserRoutes.AccountStore.Delete | routes/users.js:302-319 | the in-place delete agrees with the deletion function |
| AuthState.LoadingAndClearErrorTouchOneField | client/src/context/AuthContext.js:26-30 | `SET_LOADING` and `CLEAR_ERROR` each change only their own field |
| AuthState.LoginSuccessSignsIn | client/src/context/AuthContext.js:31-38 | `LOGIN_SUCCESS` stores user and token and ends loading with no error |
| AuthState.LogoutForgetsEverything | client/src/context/AuthContext.js:39-46 | `LOGOUT` gives the signed-out state, whatever the state was, and is idempotent |
| AuthState.SetErrorEndsLoading | client/src/context/AuthContext.js:47-52 | `SET_ERROR` records the message and ends loading, keeping user and token |
| AuthState.UpdateUserMerges | client/src/context/AuthContext.js:58-62 | `UPDATE_USER` spreads the payload over the user (the payload's keys win) and changes nothing else |
| AuthState.UnknownActionIsIgnored | client/src/context/AuthContext.js:63-64 | an unknown action returns the state unchanged |
| AuthState.LoadingStaysEnded | client/src/context/AuthContext.js:24-66 | once loading has ended, only `SET_LOADING(true)` starts it again |
| AuthState.CheckAuthBranches | client/src/context/AuthContext.js:81-108 | without a stored token only loading ends; a valid token signs in with it; a rejected token or a failed check is removed and the user signed out |
| AuthState.SignInOutcomes | client/src/context/AuthContext.js:111-189 | a sign-in ends loading either way; success stores the same token in state and storage; failure keeps the user, token and storage and shows the server's message, or the fallback when the message is missing or empty |
| AuthState.SignOut | client/src/context/AuthContext.js:192-196 | sign-out removes the stored token and signs the user out |
| SocketClient.UserJoinedKeepsUsersDistinct | client/src/context/SocketContext.js:132-139 | a join notice never adds a second entry for a user, and a repeated one changes nothing |
| SocketClient.UserLeft | client/src/context/SocketContext.js:141-144 | every entry of the leaving user goes, and every other entry stays as often as it was there |
| SocketClient.UserLeftKeepsOrder | client/src/context/SocketContext.js:141-144 | the entries that stay keep their order: a list of two parts is filtered part by part, and a single entry stays exactly when it belongs to someone else |
| SocketClient.JoinThenLeave | client/src/context/SocketContext.js:132-144 | a user who joins and then leaves leaves the list as it was |
| SocketClient.UsersUpdate | client/src/context/SocketContext.js:146-149 | the relay's list replaces the local one entry by entry: same length, and each entry carries that participant's user id, name and cursor, with no socket id |
| SocketClient.JoinThenSend | client/src/context/SocketContext.js:56-65 | joining needs a socket and a user and sends their id and name; later text changes name the joined document |
| SocketClient.LeaveOnlyFromADocument | client/src/context/SocketContext.js:68-74 | leaving disconnects and clears document and collaborators exactly when there are a socket and a current document |
| SocketClient.SendsNeedSocketAndDocument | client/src/context/SocketContext.js:77-105 | a text, cursor or title message goes out exactly when there are a socket and a current document, naming that document |
| RegisterForm.NameError | client/src/components/Auth/Register.js:183-187 | the name passes exactly when its trimmed form has at least 2 characters |
| RegisterForm.EmailError | client/src/components/Auth/Register.js:190-195 | the email passes exactly when it is non-empty and matches the address pattern |
| RegisterForm.PasswordError | client/src/components/Auth/Register.js:198-202 | the password passes exactly when it has at least 6 characters |
| RegisterForm.ConfirmError | client/src/components/Auth/Register.js:205-209 | the confirmation passes exactly when it is non-empty and equals the password |
| RegisterForm.FieldMessages | client/src/components/Auth/Register.js:183-209 | which message each field gets, in terms of its value alone |
| RegisterForm.CollectHasOneEntryPerMessage | client/src/components/Auth/Register.js:180-209 | the errors object has an entry exactly for the fields with a message, holding that message |
| RegisterForm.ErrorsListFailingFields | client/src/components/Auth/Register.js:179-213 | each field has an entry exactly when it fails; the object is empty exactly when all pass |
| RegisterForm.ValidateForm | client/src/components/Auth/Register.js:179-213 | the errors object built field by field is the one of the per-field checks, and the form is valid exactly when it is empty |
| RegisterForm.ValidIffEveryFieldPasses | client/src/components/Auth/Register.js:212 | the form is accepted exactly when name, email, password and confirmation all pass |
| RegisterForm.AcceptedFormPassesServerChecks | routes/users.js:21-45 | a form the client accepts also passes the server's field checks on registration, and is registered when its email is free and the id fresh |
| RegisterForm.InputChange | client/src/components/Auth/Register.js:163-168 | the edited field takes the new value and the other fields keep theirs |
| RegisterForm.EditClearsOnlyThatField | client/src/components/Auth/Register.js:170-176 | after an edit the field shows no error, and the other fields' errors are unchanged |
| Dashboard.FilterKeepsExactlyTheMatches | client/src/components/Dashboard/Dashboard.js:259-269 | an empty term shows the list unchanged; otherwise exactly the documents whose title contains the term, ignoring case, in list order |
| Dashboard.MatchIgnoresCase | client/src/components/Dashboard/Dashboard.js:266 | matching does not depend on the capitalisation of either title or term |
| Dashboard.AfterDelete | client/src/components/Dashboard/Dashboard.js:304 | after a delete, no document with that id remains, and every other document stays as often as it was there |
| Dashboard.AfterDeleteKeepsOrder | client/src/components/Dashboard/Dashboard.js:304 | the documents that stay keep their order: a list of two parts is filtered part by part, and a single document stays exactly when its id differs |
| Dashboard.DeleteAbsentIsNoop | client/src/components/Dashboard/Dashboard.js:304 | deleting an id not in the list leaves it unchanged |
| Dashboard.FormatDateBuckets | client/src/components/Dashboard/Dashboard.js:312-324 | under 24 hours the whole hours, under 7 days the whole days (1 to 6), otherwise the date |
| Dashboard.FormatDateMonotone | client/src/components/Dashboard/Dashboard.js:312-324 | a later clock never shows a date as more recent |
| Dashboard.NewDocumentDefaults | client/src/components/Dashboard/Dashboard.js:271-289 | the create request gives the user a private document titled "Untitled Document" with empty content |
| Initials.InitialsShape | client/src/components/Layout/Header.js:159-166 | the initials are one or two characters, none of them a lower-case letter, and "U" for a missing name |
| Initials.InitialsOfTwoWords | client/src/components/Layout/Header.js:159-166 | two words give their two first letters, upper-cased |
| Initials.BlankNameShowsU | client/src/components/Editor/DocumentEditor.js:385-392 | a name with no words (only spaces, or empty) shows "U" |
| Editor.ShownTitle | client/src/components/Editor/DocumentEditor.js:299 | a missing or empty title is shown as "Untitled Document" |
| Editor.RemoteTitle | client/src/components/Editor/DocumentEditor.js:322-327 | a received title is ignored when it echoes the local user; otherwise a non-empty title is shown as it is and a missing or empty one as "Untitled Document" |
| Editor.RelayTitleIsAppliedWhenSignedIn | client/src/components/Editor/DocumentEditor.js:324-326 | the relay's title change carries no sender, so a signed-in user always takes it and a signed-out one never does |
| Editor.RemoteText | client/src/components/Editor/DocumentEditor.js:306-320 | a received change is ignored when there is no editor or it is the local user's own; otherwise the delta is applied in preference to the full content |
| Editor.OwnChangesAreIgnored | client/src/components/Editor/DocumentEditor.js:308-315 | the user's own relayed change never touches the editor; a peer's delta wins over the content |
| Editor.EditorSession.constructor | client/src/components/Editor/DocumentEditor.js:220-230 | empty title and content, never saved, flag down |
| Editor.EditorSession.OnDocumentData | client/src/components/Editor/DocumentEditor.js:295-304 | the relay's copy replaces content, title and last-saved time and raises the flag |
| Editor.EditorSession.OnRemoteTextChange | client/src/components/Editor/DocumentEditor.js:306-320 | the editor takes the change exactly as the text-change rule says and the flag is raised when it does |
| Editor.EditorSession.SocketUpdateSettled | client/src/components/Editor/DocumentEditor.js:301-303 | the 100 ms timer lowers the flag and changes nothing else |
| Editor.EditorSession.OnRemoteTitleChange | client/src/components/Editor/DocumentEditor.js:322-327 | the title follows the remote-title rule and nothing else changes |
| Editor.EditorSession.OnLocalTitleChange | client/src/components/Editor/DocumentEditor.js:347-360 | the typed title is shown at once and replaces any title send still waiting |
| Editor.EditorSession.TitleTimerFires | client/src/components/Editor/DocumentEditor.js:355-359 | only the last typed title goes out, once, and only when a socket, a document and a connection existed when it was typed |
| Editor.EditorSession.OnLocalContentChange | client/src/components/Editor/DocumentEditor.js:362-383 | an edit is taken only when its source is the user and no relayed update is being applied; it is sent only when connected, with a socket and a document, and it starts the save-status timer |
| Editor.EditorSession.SaveTimerFires | client/src/components/Editor/DocumentEditor.js:378-381 | a pending save-status timer ends saving and records the time |
| Editor.LastSavedBuckets | client/src/components/Editor/DocumentEditor.js:394-409 | "Never" without a save, "Just now" under a minute, whole minutes (1 to 59) under an hour, whole hours (1 to 23) under a day, the date otherwise |
| Editor.LastSavedMonotone | client/src/components/Editor/DocumentEditor.js:394-409 | a later clock never shows a save as more recent |
| Header.ToggleTheme | client/src/components/Layout/Header.js:149-157 | the payload updates only `preferences` |
| Header.ToggleKeepsOtherPreferences | client/src/components/Layout/Header.js:149-157 | after the update, "dark" has become "light" and anything else "dark"; other preferences and user fields are kept |
| Header.ToggleTwiceRestores | client/src/components/Layout/Header.js:150 | toggling twice restores a light or dark theme's preferences, and leaves a missing theme on "light" |
| Text.Trim | client/src/components/Auth/Register.js:183 | `trim()` is the slice of the input whose prefix and suffix outside it are white space only, starting and ending with a non-space, and empty exactly for an all-space input |
| Text.Includes | client/src/components/Dashboard/Dashboard.js:266 | `includes` holds exactly when the term occurs at some position |
| Text.JoinSplit | client/src/components/Layout/Header.js:161-163 | joining what `split` gave with the same separator gives back the string |
| Json.Spread | routes/users.js:203 | `{ ...a, ...b }` has the keys of both, with `b`'s values where both have one |

## Left out

- The socket.io transport, rooms and the connection handshake. An emit is a message with an audience, appended to the outbox.
- Asynchrony. Handlers run one at a time, each to completion. The interleaving of concurrent `await`s on the store is not modelled.
- MongoDB. The store is a map, or a sequence for the routes. Its failures are a boolean only where the source handles them: the relay's fetch or create on join, its writes, and the unique-index clashes on account saves. The other 500 answers are not modelled.
- `populate`. The routes compare owner and collaborator ids as stored strings; only the read check of GET /:id is also modelled as written over the populated record (`DocumentRoutes.GetDocumentAsWritten`), where owners and collaborators of a private document are refused (see Findings). The user fields a populated response carries are not modelled.
- bcrypt and JWT. A hash is the password it was made from. A token is the account id it was signed for. Verification is a function parameter.
- Mongoose schema behaviour other than the defaults, the theme and permission enums, the `required` title checked on every document save, and the `lastModified` stamp on save: trimming and lower-casing setters, casting of other preference values, the random colour default, `createdAt` and `updatedAt`.
- The fields a response projects. Responses carry the modelled fields, which differ from what `.select` sends: the model drops colour, `createdAt` and the avatar colour, and it adds fields the source leaves out — `DocumentRoutes.ListDocuments` returns each document's `content`, which the list query does not select, and `UserRoutes.Search` results carry `isGuest` and `preferences`, while the search selects only id, name, email, avatar and colour.
- `UserRoutes.Hits`: the search's `$regex` with option `i` is modelled as a case-insensitive substring match. A query holding regular-expression metacharacters matches differently.
- `UserRoutes.Search`: `parseInt(limit)` of a non-numeric limit (NaN) is not modelled. The limit is an integer or absent.
- The title change the relay sends carries only `{ title }` and no sender, so the client's echo check compares a missing sender with its user (`Editor.RelayTitleIsAppliedWhenSignedIn`).
- The relay has no handler for leaving a document. A socket that joins a second document stays listed in the first room (`Server.SwitchingDocumentsLeavesStaleEntry`).
- React rendering, routing, toasts, styled components, the clipboard, `Login.js`, `LoadingSpinner.js` and `App.js`.
- The HTTP clients in `client/src/services`.
- The editor's REST load of a document (`loadDocument`) is not modelled, nor are cursor sends from the editor.
- Timers. Each timer's expiry is a method the caller invokes. Real durations, and their effect on the order of events, are not modelled.
- `Date.now` is a parameter. `toLocaleDateString` is left out: a date label is the time itself (`OnDate`).
- Case mapping covers ASCII letters only. String lengths count Dafny characters rather than UTF-16 code units.
- `RegisterForm.ValidateForm`: the errors object is keyed by field rather than by the field's name string, and its entries are message values whose texts are given by `MessageText`.
- `Dashboard.NewDocumentDefaults`: the `uuidv4` that `handleCreateDocument` draws and never uses is left out.
- `Json.Spread`: the spread of a string or array value, which would contribute its indices as keys, is modelled as contributing nothing. Only objects contribute keys.

## Findings

| source | as written | input that shows it | evidently intended | confidence | as-written member | corrected member |
|---|---|---|---|---|---|---|
| routes/documents.js:42-53 | GET /:id populates `owner` and `collaborators.userId` and then compares those user objects with `===` against the user id string, so only public documents (and ownerless ones requested without a user id) pass | a private document requested with its owner's id, or with a listed collaborator's id: 403 "Access denied" | read access for the owner and the collaborators, compared on the stored ids as the list query and the other document routes do | high (follows from the code's semantics; not executed) | DocumentRoutes.GetDocumentAsWritten, DocumentRoutes.PopulatedCheckRefusesMembers | DocumentRoutes.GetDocument, DocumentRoutes.PopulatedCheckRefusesMembers, DocumentRoutes.ListedIsReadable |
