/** The messages exchanged between the browser clients and the relay over their sockets. */
module Protocol {
  import opened Wrappers

  /** A participant as listed in a room and sent in `users-update`. */
  datatype Participant = Participant(userId: string, userName: string, cursorPosition: int)

  /** Who receives an emitted event. */
  datatype Audience =
    | ToSocket(socketId: string)                      // `socket.emit`
    | ToOthersInRoom(documentId: string, sender: string) // `socket.to(documentId).emit`
    | ToRoom(documentId: string)                      // `io.to(documentId).emit`

  /** Events the relay emits. */
  datatype Event =
    | DocumentData(content: string, title: string, lastModified: int)
    | UserJoined(userId: string, userName: string, socketId: string)
    | UsersUpdate(users: seq<Participant>)
    | TextChanged(delta: Option<string>, content: string, userId: string, userName: string)
    | CursorChanged(userId: string, userName: string, position: int)
    | TitleChanged(title: string)
    | UserLeft(userId: string, userName: string, socketId: string)
    | ErrorEvent(message: string)

  datatype Envelope = Envelope(audience: Audience, event: Event)

  /** Messages a client sends to the relay. A delta is carried as its serialized form. */
  datatype Request =
    | JoinDocument(documentId: string, userId: string, userName: string)
    | TextChange(documentId: string, delta: Option<string>, content: string)
    | CursorChange(documentId: string, position: int)
    | TitleChange(documentId: string, title: string)
}
