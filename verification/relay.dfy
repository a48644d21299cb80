/**
 * The collaboration relay of server.js: the room registry `activeDocuments`
 * (document id -> socket id -> participant), the socket registry
 * `userSockets` (socket id -> document and user), the document store, and
 * the events each socket handler emits.
 *
 * Every handler is first given as a function from the relay state before the
 * event to the state after it; the class `Relay` then performs the same
 * handler step by step on its fields and is proved to reach that state.
 * Store outcomes and the clock are parameters: `storeUp` says whether the
 * store answered a join, `saved` whether a write succeeded, `now` is the clock.
 */
module Server {
  import opened Wrappers
  import opened DocumentModel
  import opened Protocol
  import OM = OrderedMap

  /** The participants of one document, keyed by socket id, in joining order. */
  type Room = seq<OM.Entry<Participant>>

  /** What `userSockets` records for a socket. */
  datatype SocketInfo = SocketInfo(documentId: string, userId: string, userName: string)

  datatype RelayState = RelayState(
    activeDocuments: map<string, Room>,
    userSockets: map<string, SocketInfo>,
    store: map<string, Doc>,
    outbox: seq<Envelope>)

  const JoinFailed: string := "Failed to join document"

  /** The room lists `socketId` under the user `info` names. */
  ghost predicate Lists(room: Room, socketId: string, info: SocketInfo) {
    var p := OM.Get(room, socketId);
    p.Some? && p.value.userId == info.userId && p.value.userName == info.userName
  }

  /**
   * The registry invariant: every room is non-empty and has no repeated
   * socket, and every registered socket is listed, under its user, in the
   * room of the document it is registered for.
   */
  ghost predicate Consistent(st: RelayState) {
    RoomsWellFormed(st.activeDocuments) && SocketsListed(st)
  }

  ghost predicate RoomsWellFormed(rooms: map<string, Room>) {
    forall d :: d in rooms ==> |rooms[d]| > 0 && OM.Distinct(rooms[d])
  }

  ghost predicate SocketsListed(st: RelayState) {
    forall s :: s in st.userSockets ==>
      st.userSockets[s].documentId in st.activeDocuments &&
      Lists(st.activeDocuments[st.userSockets[s].documentId], s, st.userSockets[s])
  }

  /** The guard of the edit handlers: the socket is registered for this document. */
  predicate InRoom(st: RelayState, socketId: string, documentId: string) {
    socketId in st.userSockets && st.userSockets[socketId].documentId == documentId
  }

  function RoomOf(st: RelayState, documentId: string): Room {
    if documentId in st.activeDocuments then st.activeDocuments[documentId] else []
  }

  /** The document the join handler creates for an unknown id; the save hook stamps `now`. */
  function NewDocument(documentId: string, now: int): Doc {
    Doc(documentId, DefaultTitle, "", None, [], false, now)
  }

  /** Fetch-or-create: a stored document is used unchanged, an unknown id gets the defaults. */
  function FetchOrCreate(store: map<string, Doc>, documentId: string, now: int): (d: Doc)
    ensures documentId in store ==> d == store[documentId]
    ensures documentId !in store ==>
      && d.id == documentId && d.title == DefaultTitle && d.content == ""
      && d.collaborators == [] && d.owner == None && !d.isPublic
  {
    if documentId in store then store[documentId] else NewDocument(documentId, now)
  }

  /** `join-document`. */
  function OnJoin(st: RelayState, socketId: string, documentId: string, userId: string, userName: string,
                  storeUp: bool, now: int): RelayState
  {
    if !storeUp then
      st.(outbox := st.outbox + [Envelope(ToSocket(socketId), ErrorEvent(JoinFailed))])
    else
      var doc := FetchOrCreate(st.store, documentId, now);
      var room := OM.Put(RoomOf(st, documentId), socketId, Participant(userId, userName, 0));
      RelayState(
        st.activeDocuments[documentId := room],
        st.userSockets[socketId := SocketInfo(documentId, userId, userName)],
        st.store[documentId := doc],
        st.outbox + [
          Envelope(ToSocket(socketId), DocumentData(doc.content, doc.title, doc.lastModified)),
          Envelope(ToOthersInRoom(documentId, socketId), UserJoined(userId, userName, socketId)),
          Envelope(ToRoom(documentId), UsersUpdate(OM.Values(room)))])
  }

  /** `text-change`: relay to the others, then overwrite the stored content (last write wins). */
  function OnTextChange(st: RelayState, socketId: string, documentId: string, delta: Option<string>,
                        content: string, saved: bool, now: int): RelayState
  {
    if !InRoom(st, socketId, documentId) then st
    else
      var info := st.userSockets[socketId];
      var outbox := st.outbox + [Envelope(ToOthersInRoom(documentId, socketId),
                                          TextChanged(delta, content, info.userId, info.userName))];
      var store := if saved && documentId in st.store
                   then st.store[documentId := st.store[documentId].(content := content, lastModified := now)]
                   else st.store;
      st.(store := store, outbox := outbox)
  }

  /** `cursor-change`: update only the sender's cursor and relay it; nothing is stored. */
  function OnCursorChange(st: RelayState, socketId: string, documentId: string, position: int): RelayState
  {
    if InRoom(st, socketId, documentId) && documentId in st.activeDocuments
       && OM.Get(st.activeDocuments[documentId], socketId).Some?
    then
      var info := st.userSockets[socketId];
      var room := st.activeDocuments[documentId];
      var p := OM.Get(room, socketId).value;
      st.(activeDocuments := st.activeDocuments[documentId := OM.Put(room, socketId, p.(cursorPosition := position))],
          outbox := st.outbox + [Envelope(ToOthersInRoom(documentId, socketId),
                                          CursorChanged(info.userId, info.userName, position))])
    else st
  }

  /** `title-change`: store first; relay to the others only if the write did not fail. */
  function OnTitleChange(st: RelayState, socketId: string, documentId: string, title: string,
                         saved: bool, now: int): RelayState
  {
    if InRoom(st, socketId, documentId) && saved then
      var store := if documentId in st.store
                   then st.store[documentId := st.store[documentId].(title := title, lastModified := now)]
                   else st.store;
      st.(store := store,
          outbox := st.outbox + [Envelope(ToOthersInRoom(documentId, socketId), TitleChanged(title))])
    else st
  }

  /** `disconnect`: drop the participant, tell the rest of the room, remove an emptied room. */
  function OnDisconnect(st: RelayState, socketId: string): RelayState
  {
    if socketId !in st.userSockets then st
    else
      var info := st.userSockets[socketId];
      var d := info.documentId;
      var sockets := st.userSockets - {socketId};
      if d !in st.activeDocuments then st.(userSockets := sockets)
      else
        var room' := OM.Remove(st.activeDocuments[d], socketId);
        var rooms := if |room'| == 0 then st.activeDocuments - {d} else st.activeDocuments[d := room'];
        RelayState(rooms, sockets, st.store, st.outbox + [
          Envelope(ToOthersInRoom(d, socketId), UserLeft(info.userId, info.userName, socketId)),
          Envelope(ToRoom(d), UsersUpdate(OM.Values(room')))])
  }

  /** A join keeps the registry invariant. */
  lemma JoinKeepsInvariant(st: RelayState, socketId: string, documentId: string, userId: string,
                           userName: string, storeUp: bool, now: int)
    requires Consistent(st)
    ensures Consistent(OnJoin(st, socketId, documentId, userId, userName, storeUp, now))
  {
    if storeUp {
      var p := Participant(userId, userName, 0);
      var old_room := RoomOf(st, documentId);
      var room := OM.Put(old_room, socketId, p);
      var rooms := st.activeDocuments[documentId := room];
      var sockets := st.userSockets[socketId := SocketInfo(documentId, userId, userName)];
      assert OM.Distinct(old_room);
      OM.PutDistinct(old_room, socketId, p);
      assert socketId in OM.Keys(room);
      assert RoomsWellFormed(rooms);
      var st' := OnJoin(st, socketId, documentId, userId, userName, storeUp, now);
      assert st'.activeDocuments == rooms && st'.userSockets == sockets;
      forall s | s in sockets
        ensures sockets[s].documentId in rooms && Lists(rooms[sockets[s].documentId], s, sockets[s])
      {
        if s != socketId {
          var info := st.userSockets[s];
          assert Lists(st.activeDocuments[info.documentId], s, info);
          if info.documentId == documentId {
            assert OM.Get(room, s) == OM.Get(old_room, s);
          }
        }
      }
      assert SocketsListed(st');
    }
  }

  /** A failed fetch or create only sends an error to the joiner: nobody is registered. */
  lemma JoinFailureOnlyReportsError(st: RelayState, socketId: string, documentId: string, userId: string,
                                    userName: string, now: int)
    ensures OnJoin(st, socketId, documentId, userId, userName, false, now) ==
      st.(outbox := st.outbox + [Envelope(ToSocket(socketId), ErrorEvent("Failed to join document"))])
  {
  }

  /**
   * A successful join stores the fetched or created document, registers the
   * socket for the document and lists its user with cursor 0.
   */
  lemma JoinRegisters(st: RelayState, socketId: string, documentId: string, userId: string,
                      userName: string, now: int)
    ensures var st' := OnJoin(st, socketId, documentId, userId, userName, true, now);
      && st'.store == st.store[documentId := FetchOrCreate(st.store, documentId, now)]
      && InRoom(st', socketId, documentId)
      && st'.userSockets[socketId] == SocketInfo(documentId, userId, userName)
      && documentId in st'.activeDocuments
      && OM.Get(st'.activeDocuments[documentId], socketId) == Some(Participant(userId, userName, 0))
      && OM.Keys(st'.activeDocuments[documentId]) == OM.Keys(RoomOf(st, documentId)) + {socketId}
  {
  }

  /**
   * A successful join sends the stored content, title and lastModified to the
   * joiner only, a join notice to the rest of the room, and the participant
   * list, joiner included, to the whole room.
   */
  lemma JoinMessages(st: RelayState, socketId: string, documentId: string, userId: string,
                     userName: string, now: int)
    ensures var st' := OnJoin(st, socketId, documentId, userId, userName, true, now);
      var doc := FetchOrCreate(st.store, documentId, now);
      var users := OM.Values(st'.activeDocuments[documentId]);
      && st'.outbox == st.outbox + [
           Envelope(ToSocket(socketId), DocumentData(doc.content, doc.title, doc.lastModified)),
           Envelope(ToOthersInRoom(documentId, socketId), UserJoined(userId, userName, socketId)),
           Envelope(ToRoom(documentId), UsersUpdate(users))]
      && Participant(userId, userName, 0) in users
  {
    var p := Participant(userId, userName, 0);
    var room := OM.Put(RoomOf(st, documentId), socketId, p);
    var i :| 0 <= i < |room| && room[i] == OM.Entry(socketId, p);
    assert OM.Values(room)[i] == p;
  }

  /** A socket new to the room is listed after everyone already there, so lists keep joining order. */
  lemma JoinAppendsNewcomer(st: RelayState, socketId: string, documentId: string, userId: string,
                            userName: string, now: int)
    requires socketId !in OM.Keys(RoomOf(st, documentId))
    ensures OnJoin(st, socketId, documentId, userId, userName, true, now).activeDocuments[documentId]
            == RoomOf(st, documentId) + [OM.Entry(socketId, Participant(userId, userName, 0))]
  {
  }

  /** A join touches no other room and no other socket's record. */
  lemma JoinLeavesOthersAlone(st: RelayState, socketId: string, documentId: string, userId: string,
                              userName: string, storeUp: bool, now: int)
    ensures var st' := OnJoin(st, socketId, documentId, userId, userName, storeUp, now);
      && (forall d :: d != documentId ==>
            (d in st'.activeDocuments <==> d in st.activeDocuments) &&
            (d in st.activeDocuments ==> st'.activeDocuments[d] == st.activeDocuments[d]))
      && (forall s :: s != socketId ==>
            (s in st'.userSockets <==> s in st.userSockets) &&
            (s in st.userSockets ==> st'.userSockets[s] == st.userSockets[s]))
  {
  }

  /** An edit, cursor move or rename from a socket not registered for that document does nothing. */
  lemma OutsidersAreIgnored(st: RelayState, socketId: string, documentId: string, delta: Option<string>,
                            content: string, position: int, title: string, saved: bool, now: int)
    requires !InRoom(st, socketId, documentId)
    ensures OnTextChange(st, socketId, documentId, delta, content, saved, now) == st
    ensures OnCursorChange(st, socketId, documentId, position) == st
    ensures OnTitleChange(st, socketId, documentId, title, saved, now) == st
  {
  }

  /**
   * A text change from a member goes to the rest of the room tagged with the
   * sender's user, leaves the registries alone, and, when the write succeeds on
   * a stored document, replaces its content and stamps the time, whatever the
   * content was; a failed write is dropped.
   */
  lemma TextChangeRelaysThenOverwrites(st: RelayState, socketId: string, documentId: string,
                                       delta: Option<string>, content: string, saved: bool, now: int)
    requires InRoom(st, socketId, documentId)
    ensures var st' := OnTextChange(st, socketId, documentId, delta, content, saved, now);
      var info := st.userSockets[socketId];
      && st'.activeDocuments == st.activeDocuments && st'.userSockets == st.userSockets
      && st'.outbox == st.outbox + [Envelope(ToOthersInRoom(documentId, socketId),
                                             TextChanged(delta, content, info.userId, info.userName))]
      && (saved && documentId in st.store ==>
            st'.store == st.store[documentId := st.store[documentId].(content := content, lastModified := now)])
      && (!(saved && documentId in st.store) ==> st'.store == st.store)
  {
  }

  /**
   * A cursor move from a member changes the sender's cursor position and
   * nothing else of the room, stores nothing, and goes to the rest of the room.
   */
  lemma CursorChangeMovesOnlyTheSender(st: RelayState, socketId: string, documentId: string, position: int)
    requires Consistent(st) && InRoom(st, socketId, documentId)
    ensures var st' := OnCursorChange(st, socketId, documentId, position);
      var info := st.userSockets[socketId];
      var room := st.activeDocuments[documentId];
      && st'.store == st.store && st'.userSockets == st.userSockets
      && documentId in st'.activeDocuments
      && var room' := st'.activeDocuments[documentId];
      && OM.Get(room', socketId) == Some(OM.Get(room, socketId).value.(cursorPosition := position))
      && (forall s :: s != socketId ==> OM.Get(room', s) == OM.Get(room, s))
      && |room'| == |room| && (forall i :: 0 <= i < |room| ==> room'[i].key == room[i].key)
      && st'.activeDocuments == st.activeDocuments[documentId := room']
      && st'.outbox == st.outbox + [Envelope(ToOthersInRoom(documentId, socketId),
                                             CursorChanged(info.userId, info.userName, position))]
  {
    var room := st.activeDocuments[documentId];
    var p := OM.Get(room, socketId).value;
    OM.PutInPlace(room, socketId, p.(cursorPosition := position));
  }

  lemma CursorChangeKeepsInvariant(st: RelayState, socketId: string, documentId: string, position: int)
    requires Consistent(st)
    ensures Consistent(OnCursorChange(st, socketId, documentId, position))
  {
    var st' := OnCursorChange(st, socketId, documentId, position);
    if st' != st {
      var room := st.activeDocuments[documentId];
      var p := OM.Get(room, socketId).value;
      var room' := OM.Put(room, socketId, p.(cursorPosition := position));
      var rooms := st.activeDocuments[documentId := room'];
      assert st'.activeDocuments == rooms && st'.userSockets == st.userSockets;
      OM.PutDistinct(room, socketId, p.(cursorPosition := position));
      assert RoomsWellFormed(rooms);
      forall s | s in st.userSockets
        ensures st.userSockets[s].documentId in rooms && Lists(rooms[st.userSockets[s].documentId], s, st.userSockets[s])
      {
        var info := st.userSockets[s];
        assert Lists(st.activeDocuments[info.documentId], s, info);
      }
      assert SocketsListed(st');
    }
  }

  /**
   * A rename from a member is stored first; only when that write did not fail
   * is the new title (and nothing else: no sender) sent to the rest of the room.
   */
  lemma TitleChangeStoresThenRelays(st: RelayState, socketId: string, documentId: string, title: string,
                                    saved: bool, now: int)
    requires InRoom(st, socketId, documentId)
    ensures var st' := OnTitleChange(st, socketId, documentId, title, saved, now);
      && st'.activeDocuments == st.activeDocuments && st'.userSockets == st.userSockets
      && (!saved ==> st' == st)
      && (saved ==> st'.outbox == st.outbox + [Envelope(ToOthersInRoom(documentId, socketId), TitleChanged(title))])
      && (saved && documentId in st.store ==>
            st'.store == st.store[documentId := st.store[documentId].(title := title, lastModified := now)])
      && (documentId !in st.store ==> st'.store == st.store)
  {
  }

  /** An unknown socket's disconnect changes nothing and sends nothing. */
  lemma DisconnectUnknownIsNoop(st: RelayState, socketId: string)
    requires socketId !in st.userSockets
    ensures OnDisconnect(st, socketId) == st
  {
  }

  /**
   * A member's disconnect drops its socket record and its participant, sends
   * `user-left` to the rest of the room and then the remaining list to the
   * room, and removes the room once it is empty; other rooms and the store
   * are untouched.
   */
  lemma DisconnectCleansUp(st: RelayState, socketId: string)
    requires Consistent(st) && socketId in st.userSockets
    ensures var st' := OnDisconnect(st, socketId);
      var info := st.userSockets[socketId];
      var d := info.documentId;
      var room' := OM.Remove(st.activeDocuments[d], socketId);
      && st'.userSockets == st.userSockets - {socketId}
      && st'.store == st.store
      && socketId !in OM.Keys(room')
      && (d in st'.activeDocuments <==> |room'| > 0)
      && (d in st'.activeDocuments ==> st'.activeDocuments[d] == room')
      && st'.outbox == st.outbox + [
           Envelope(ToOthersInRoom(d, socketId), UserLeft(info.userId, info.userName, socketId)),
           Envelope(ToRoom(d), UsersUpdate(OM.Values(room')))]
      && (forall e :: e != d ==>
            (e in st'.activeDocuments <==> e in st.activeDocuments) &&
            (e in st.activeDocuments ==> st'.activeDocuments[e] == st.activeDocuments[e]))
  {
  }

  lemma DisconnectKeepsInvariant(st: RelayState, socketId: string)
    requires Consistent(st)
    ensures Consistent(OnDisconnect(st, socketId))
  {
    if socketId in st.userSockets {
      var d := st.userSockets[socketId].documentId;
      var room := st.activeDocuments[d];
      var room' := OM.Remove(room, socketId);
      var rooms := if |room'| == 0 then st.activeDocuments - {d} else st.activeDocuments[d := room'];
      var sockets := st.userSockets - {socketId};
      var st' := OnDisconnect(st, socketId);
      assert st'.activeDocuments == rooms && st'.userSockets == sockets;
      OM.RemoveDistinct(room, socketId);
      assert RoomsWellFormed(rooms);
      forall s | s in sockets
        ensures sockets[s].documentId in rooms && Lists(rooms[sockets[s].documentId], s, sockets[s])
      {
        var info := st.userSockets[s];
        assert Lists(st.activeDocuments[info.documentId], s, info);
        if info.documentId == d {
          assert OM.Get(room', s) == OM.Get(room, s);
          assert s in OM.Keys(room');
        }
      }
      assert SocketsListed(st');
    }
  }

  /** One event as the socket server delivers it to the relay. */
  datatype Inbound =
    | Received(socketId: string, request: Request, storeUp: bool, now: int)
    | Disconnected(socketId: string)

  function Step(st: RelayState, input: Inbound): RelayState
  {
    match input
    case Disconnected(s) => OnDisconnect(st, s)
    case Received(s, JoinDocument(d, u, n), up, now) => OnJoin(st, s, d, u, n, up, now)
    case Received(s, TextChange(d, delta, c), up, now) => OnTextChange(st, s, d, delta, c, up, now)
    case Received(s, CursorChange(d, pos), _, _) => OnCursorChange(st, s, d, pos)
    case Received(s, TitleChange(d, t), up, now) => OnTitleChange(st, s, d, t, up, now)
  }

  /** The relay handles events one at a time, each to completion, in arrival order. */
  function Run(st: RelayState, inputs: seq<Inbound>): RelayState
    decreases |inputs|
  {
    if |inputs| == 0 then st else Run(Step(st, inputs[0]), inputs[1..])
  }

  /** Every event keeps the registry invariant and only appends to what was sent. */
  lemma StepKeepsInvariant(st: RelayState, input: Inbound)
    requires Consistent(st)
    ensures Consistent(Step(st, input))
    ensures |st.outbox| <= |Step(st, input).outbox| && Step(st, input).outbox[..|st.outbox|] == st.outbox
  {
    match input
    case Disconnected(s) => DisconnectKeepsInvariant(st, s);
    case Received(s, JoinDocument(d, u, n), up, now) => JoinKeepsInvariant(st, s, d, u, n, up, now);
    case Received(s, TextChange(d, delta, c), up, now) =>
    case Received(s, CursorChange(d, pos), _, _) => CursorChangeKeepsInvariant(st, s, d, pos);
    case Received(s, TitleChange(d, t), up, now) =>
  }

  /** Any sequence of events keeps the registry invariant and only appends to what was sent. */
  lemma {:induction false} RunKeepsInvariant(st: RelayState, inputs: seq<Inbound>)
    requires Consistent(st)
    ensures Consistent(Run(st, inputs))
    ensures |st.outbox| <= |Run(st, inputs).outbox| && Run(st, inputs).outbox[..|st.outbox|] == st.outbox
    decreases |inputs|
  {
    if |inputs| > 0 {
      var st1 := Step(st, inputs[0]);
      StepKeepsInvariant(st, inputs[0]);
      RunKeepsInvariant(st1, inputs[1..]);
      var out := Run(st, inputs).outbox;
      assert out[..|st1.outbox|][..|st.outbox|] == out[..|st.outbox|];
    }
  }

  /** A socket that joins and then disconnects leaves both registries as they were. */
  lemma JoinThenDisconnect(st: RelayState, socketId: string, documentId: string, userId: string,
                           userName: string, now: int)
    requires Consistent(st)
    requires socketId !in st.userSockets && socketId !in OM.Keys(RoomOf(st, documentId))
    ensures var st' := OnDisconnect(OnJoin(st, socketId, documentId, userId, userName, true, now), socketId);
      st'.activeDocuments == st.activeDocuments && st'.userSockets == st.userSockets
  {
    assert documentId in st.activeDocuments ==> |st.activeDocuments[documentId]| > 0;
    JoinThenDisconnectRooms(st, socketId, documentId, userId, userName, now);
    JoinThenDisconnectSockets(st, socketId, documentId, userId, userName, now);
  }

  lemma JoinThenDisconnectSockets(st: RelayState, socketId: string, documentId: string, userId: string,
                                  userName: string, now: int)
    requires socketId !in st.userSockets
    ensures OnDisconnect(OnJoin(st, socketId, documentId, userId, userName, true, now), socketId).userSockets
            == st.userSockets
  {
    var st1 := OnJoin(st, socketId, documentId, userId, userName, true, now);
    assert st1.userSockets - {socketId} == st.userSockets;
  }

  lemma JoinThenDisconnectRooms(st: RelayState, socketId: string, documentId: string, userId: string,
                                userName: string, now: int)
    requires documentId in st.activeDocuments ==> |st.activeDocuments[documentId]| > 0
    requires socketId !in OM.Keys(RoomOf(st, documentId))
    ensures OnDisconnect(OnJoin(st, socketId, documentId, userId, userName, true, now), socketId).activeDocuments
            == st.activeDocuments
  {
    var room := OM.Put(RoomOf(st, documentId), socketId, Participant(userId, userName, 0));
    OM.RemovePut(RoomOf(st, documentId), socketId, Participant(userId, userName, 0));
    var st1 := OnJoin(st, socketId, documentId, userId, userName, true, now);
    assert st1.userSockets[socketId].documentId == documentId;
    assert st1.activeDocuments == st.activeDocuments[documentId := room];
    RestoreRoom(st.activeDocuments, documentId, room, RoomOf(st, documentId));
  }

  /** Putting back what a room held before a temporary entry, or dropping a room that was not there. */
  lemma RestoreRoom(rooms: map<string, Room>, d: string, room: Room, room': Room)
    requires d in rooms ==> room' == rooms[d] && |room'| > 0
    requires d !in rooms ==> room' == []
    ensures (if |room'| == 0 then rooms[d := room] - {d} else rooms[d := room][d := room']) == rooms
  {
    if d in rooms {
      assert rooms[d := room][d := room'] == rooms;
    } else {
      assert rooms[d := room] - {d} == rooms;
    }
  }

  /** A join of a stored document sends back exactly what the store holds. */
  lemma SecondJoinSeesStoredDocument(st: RelayState, a: string, b: string, documentId: string,
                                     userA: string, nameA: string, userB: string, nameB: string, t1: int, t2: int)
    requires documentId !in st.store
    ensures var st1 := OnJoin(st, a, documentId, userA, nameA, true, t1);
      var st2 := OnJoin(st1, b, documentId, userB, nameB, true, t2);
      && st2.store[documentId] == st1.store[documentId]
      && st2.outbox[|st1.outbox|] == Envelope(ToSocket(b), DocumentData("", "Untitled Document", t1))
  {
  }

  /** Two edits of one document: the later one is what the store keeps; nothing is merged. */
  lemma LastWriteWins(st: RelayState, a: string, b: string, documentId: string,
                      ca: string, cb: string, t1: int, t2: int)
    requires InRoom(st, a, documentId) && InRoom(st, b, documentId) && documentId in st.store
    ensures var st1 := OnTextChange(st, a, documentId, None, ca, true, t1);
      var st2 := OnTextChange(st1, b, documentId, None, cb, true, t2);
      st2.store[documentId].content == cb && st2.store[documentId].lastModified == t2
  {
  }

  /**
   * A socket that joins a second document without disconnecting stays listed in
   * the first room; its disconnect then clears only the second.
   */
  lemma SwitchingDocumentsLeavesStaleEntry(st: RelayState, s: string, d1: string, d2: string,
                                           userId: string, userName: string, t1: int, t2: int)
    requires Consistent(st) && d1 != d2
    ensures var st1 := OnJoin(st, s, d1, userId, userName, true, t1);
      var st2 := OnJoin(st1, s, d2, userId, userName, true, t2);
      var st3 := OnDisconnect(st2, s);
      && s !in st3.userSockets
      && d1 in st3.activeDocuments && s in OM.Keys(st3.activeDocuments[d1])
  {
    var st1 := OnJoin(st, s, d1, userId, userName, true, t1);
    var st2 := OnJoin(st1, s, d2, userId, userName, true, t2);
    assert st2.activeDocuments[d1] == st1.activeDocuments[d1];
  }

  /**
   * Two users open a document that is not stored yet on a fresh relay; the
   * first types `text`; the second leaves. The second was sent the first's
   * edit, the store holds `text`, and the last message lists only the first.
   */
  lemma TwoUserSession(a: string, b: string, d: string, ua: string, na: string, ub: string, nb: string,
                       text: string, now: int)
    requires a != b
    ensures var st0 := RelayState(map[], map[], map[], []);
      var st1 := OnJoin(st0, a, d, ua, na, true, now);
      var st2 := OnJoin(st1, b, d, ub, nb, true, now);
      var st3 := OnTextChange(st2, a, d, None, text, true, now);
      var st4 := OnDisconnect(st3, b);
      && st3.outbox[|st2.outbox|] == Envelope(ToOthersInRoom(d, a), TextChanged(None, text, ua, na))
      && st4.store[d].content == text
      && st4.outbox[|st4.outbox| - 1] == Envelope(ToRoom(d), UsersUpdate([Participant(ua, na, 0)]))
  {
    var st1 := FirstJoin(a, d, ua, na, now);
    var st2 := OnJoin(st1, b, d, ub, nb, true, now);
    TwoJoinsRoom(st1, a, b, d, ua, na, ub, nb, now);
    var ea := OM.Entry(a, Participant(ua, na, 0));
    var eb := OM.Entry(b, Participant(ub, nb, 0));
    assert st2.userSockets[a] == SocketInfo(d, ua, na);
    var st3 := OnTextChange(st2, a, d, None, text, true, now);
    assert st3.activeDocuments == st2.activeDocuments && st3.userSockets == st2.userSockets;
    assert OM.Remove([ea, eb], b) == [ea];
    assert OM.Values([ea]) == [Participant(ua, na, 0)];
  }

  /** After a first join, a second socket is listed after the first. */
  lemma TwoJoinsRoom(st1: RelayState, a: string, b: string, d: string, ua: string, na: string, ub: string, nb: string,
                     now: int)
    requires a != b
    requires RoomOf(st1, d) == [OM.Entry(a, Participant(ua, na, 0))] && OM.Keys(RoomOf(st1, d)) == {a}
    ensures OnJoin(st1, b, d, ub, nb, true, now).activeDocuments[d]
            == [OM.Entry(a, Participant(ua, na, 0)), OM.Entry(b, Participant(ub, nb, 0))]
  {
    JoinAppendsNewcomer(st1, b, d, ub, nb, now);
  }

  /** The state after one socket has joined a document on a fresh relay. */
  lemma FirstJoin(a: string, d: string, ua: string, na: string, now: int) returns (st1: RelayState)
    ensures st1 == OnJoin(RelayState(map[], map[], map[], []), a, d, ua, na, true, now)
    ensures RoomOf(st1, d) == [OM.Entry(a, Participant(ua, na, 0))] && OM.Keys(RoomOf(st1, d)) == {a}
    ensures st1.userSockets == map[a := SocketInfo(d, ua, na)]
  {
    st1 := OnJoin(RelayState(map[], map[], map[], []), a, d, ua, na, true, now);
    JoinAppendsNewcomer(RelayState(map[], map[], map[], []), a, d, ua, na, now);
  }

  /** The relay as server.js holds it: two registries, the store it writes, and what it has sent. */
  class Relay {
    var activeDocuments: map<string, Room>
    var userSockets: map<string, SocketInfo>
    var store: map<string, Doc>
    var outbox: seq<Envelope>

    function View(): RelayState
      reads this
    {
      RelayState(activeDocuments, userSockets, store, outbox)
    }

    ghost predicate Valid()
      reads this
    {
      Consistent(View())
    }

    constructor (initialStore: map<string, Doc>)
      ensures Valid()
      ensures View() == RelayState(map[], map[], initialStore, [])
    {
      activeDocuments := map[];
      userSockets := map[];
      store := initialStore;
      outbox := [];
    }

    method HandleJoin(socketId: string, documentId: string, userId: string, userName: string,
                        storeUp: bool, now: int)
      requires Valid()
      modifies this
      ensures Valid()
      ensures View() == OnJoin(old(View()), socketId, documentId, userId, userName, storeUp, now)
    {
      ghost var before := View();
      if !storeUp {
        outbox := outbox + [Envelope(ToSocket(socketId), ErrorEvent(JoinFailed))];
        assert View() == OnJoin(before, socketId, documentId, userId, userName, storeUp, now);
        JoinKeepsInvariant(before, socketId, documentId, userId, userName, storeUp, now);
        return;
      }
      var document: Doc;
      if documentId in store {
        document := store[documentId];
      } else {
        document := NewDocument(documentId, now);
      }
      store := store[documentId := document];
      // A document nobody has open gets a fresh, empty room.
      var documentUsers: Room := [];
      if documentId in activeDocuments {
        documentUsers := activeDocuments[documentId];
      }
      assert documentUsers == RoomOf(before, documentId);
      documentUsers := OM.Put(documentUsers, socketId, Participant(userId, userName, 0));
      activeDocuments := activeDocuments[documentId := documentUsers];
      userSockets := userSockets[socketId := SocketInfo(documentId, userId, userName)];
      outbox := outbox + [
        Envelope(ToSocket(socketId), DocumentData(document.content, document.title, document.lastModified)),
        Envelope(ToOthersInRoom(documentId, socketId), UserJoined(userId, userName, socketId)),
        Envelope(ToRoom(documentId), UsersUpdate(OM.Values(documentUsers)))];
      JoinKeepsInvariant(before, socketId, documentId, userId, userName, storeUp, now);
    }

    method HandleTextChange(socketId: string, documentId: string, delta: Option<string>, content: string,
                            saved: bool, now: int)
      requires Valid()
      modifies this
      ensures Valid()
      ensures View() == OnTextChange(old(View()), socketId, documentId, delta, content, saved, now)
    {
      if socketId in userSockets && userSockets[socketId].documentId == documentId {
        var userInfo := userSockets[socketId];
        outbox := outbox + [Envelope(ToOthersInRoom(documentId, socketId),
                                     TextChanged(delta, content, userInfo.userId, userInfo.userName))];
        if saved && documentId in store {
          store := store[documentId := store[documentId].(content := content, lastModified := now)];
        }
      }
    }

    method HandleCursorChange(socketId: string, documentId: string, position: int)
      requires Valid()
      modifies this
      ensures Valid()
      ensures View() == OnCursorChange(old(View()), socketId, documentId, position)
    {
      ghost var before := View();
      if socketId in userSockets && userSockets[socketId].documentId == documentId {
        var userInfo := userSockets[socketId];
        if documentId in activeDocuments && OM.Get(activeDocuments[documentId], socketId).Some? {
          var documentUsers := activeDocuments[documentId];
          var user := OM.Get(documentUsers, socketId).value;
          documentUsers := OM.Put(documentUsers, socketId, user.(cursorPosition := position));
          activeDocuments := activeDocuments[documentId := documentUsers];
          outbox := outbox + [Envelope(ToOthersInRoom(documentId, socketId),
                                       CursorChanged(userInfo.userId, userInfo.userName, position))];
        }
      }
      CursorChangeKeepsInvariant(before, socketId, documentId, position);
    }

    method HandleTitleChange(socketId: string, documentId: string, title: string, saved: bool, now: int)
      requires Valid()
      modifies this
      ensures Valid()
      ensures View() == OnTitleChange(old(View()), socketId, documentId, title, saved, now)
    {
      if socketId in userSockets && userSockets[socketId].documentId == documentId && saved {
        if documentId in store {
          store := store[documentId := store[documentId].(title := title, lastModified := now)];
        }
        outbox := outbox + [Envelope(ToOthersInRoom(documentId, socketId), TitleChanged(title))];
      }
    }

    method HandleDisconnect(socketId: string)
      requires Valid()
      modifies this
      ensures Valid()
      ensures View() == OnDisconnect(old(View()), socketId)
    {
      ghost var before := View();
      if socketId in userSockets {
        var userInfo := userSockets[socketId];
        var documentId := userInfo.documentId;
        if documentId in activeDocuments {
          var documentUsers := OM.Remove(activeDocuments[documentId], socketId);
          outbox := outbox + [
            Envelope(ToOthersInRoom(documentId, socketId), UserLeft(userInfo.userId, userInfo.userName, socketId)),
            Envelope(ToRoom(documentId), UsersUpdate(OM.Values(documentUsers)))];
          // An emptied room is dropped.
          if |documentUsers| == 0 {
            activeDocuments := activeDocuments - {documentId};
          } else {
            activeDocuments := activeDocuments[documentId := documentUsers];
          }
        }
        userSockets := userSockets - {socketId};
      }
      DisconnectKeepsInvariant(before, socketId);
    }
  }
}
