/**
 * The client's side of the relay (client/src/context/SocketContext.js): the
 * list of collaborators it keeps from the relay's events, and the guards on
 * what it sends.
 */
module SocketClient {
  import opened Wrappers
  import opened Seqs
  import opened Protocol

  /**
   * An entry of the collaborators list. A `user-joined` payload carries a
   * socket id and no cursor; a `users-update` entry carries a cursor and no
   * socket id.
   */
  datatype Peer = Peer(userId: string, userName: string, socketId: Option<string>, cursorPosition: Option<int>)

  function FromJoined(userId: string, userName: string, socketId: string): Peer {
    Peer(userId, userName, Some(socketId), None)
  }

  function FromParticipant(p: Participant): Peer {
    Peer(p.userId, p.userName, None, Some(p.cursorPosition))
  }

  /** Some entry of the list has this user id. */
  predicate Listed(peers: seq<Peer>, userId: string) {
    exists i :: 0 <= i < |peers| && peers[i].userId == userId
  }

  /** No user id occurs twice. */
  predicate NoDuplicateUsers(peers: seq<Peer>) {
    forall i, j :: 0 <= i < j < |peers| ==> peers[i].userId != peers[j].userId
  }

  /** `handleUserJoined`: the newcomer is appended unless an entry with that user id exists. */
  function UserJoined(peers: seq<Peer>, p: Peer): seq<Peer> {
    if Listed(peers, p.userId) then peers else peers + [p]
  }

  /** The list never gains a second entry for a user, and a repeated join changes nothing. */
  lemma UserJoinedKeepsUsersDistinct(peers: seq<Peer>, p: Peer)
    requires NoDuplicateUsers(peers)
    ensures NoDuplicateUsers(UserJoined(peers, p))
    ensures Listed(UserJoined(peers, p), p.userId)
    ensures UserJoined(UserJoined(peers, p), p) == UserJoined(peers, p)
  {
    var r := UserJoined(peers, p);
    assert r[|r| - 1] == p || r == peers;
  }

  /** `handleUserLeft`: every entry of that user goes, the others stay in order. */
  function UserLeft(peers: seq<Peer>, userId: string): (r: seq<Peer>)
    ensures !Listed(r, userId)
    ensures forall x :: x in r <==> x in peers && x.userId != userId
    ensures forall x: Peer :: x.userId != userId ==> multiset(r)[x] == multiset(peers)[x]
  {
    var r := Filter(peers, (x: Peer) => x.userId != userId);
    assert forall i :: 0 <= i < |r| ==> r[i] in r;
    r
  }

  /**
   * The entries that stay keep their order: removing a user from a list made
   * of two parts removes it from each part, and a one-entry list keeps its
   * entry exactly when it belongs to someone else.
   */
  lemma UserLeftKeepsOrder(a: seq<Peer>, b: seq<Peer>, p: Peer, userId: string)
    ensures UserLeft(a + b, userId) == UserLeft(a, userId) + UserLeft(b, userId)
    ensures UserLeft([p], userId) == if p.userId == userId then [] else [p]
  {
    FilterAppend(a, b, (x: Peer) => x.userId != userId);
    assert [p][1..] == [];
  }

  /** A user who joins and then leaves leaves the list as it was before the join. */
  lemma JoinThenLeave(peers: seq<Peer>, p: Peer)
    requires !Listed(peers, p.userId)
    ensures UserLeft(UserJoined(peers, p), p.userId) == peers
  {
    var keep := (x: Peer) => x.userId != p.userId;
    FilterAppend(peers, [p], keep);
    assert Filter([p], keep) == [];
  }

  /** `handleUsersUpdate`: the relay's list replaces the local one. */
  function UsersUpdate(users: seq<Participant>): (r: seq<Peer>)
    ensures |r| == |users|
    ensures forall i :: 0 <= i < |users| ==>
      && r[i].userId == users[i].userId && r[i].userName == users[i].userName
      && r[i].cursorPosition == Some(users[i].cursorPosition) && r[i].socketId.None?
  {
    seq(|users|, i requires 0 <= i < |users| => FromParticipant(users[i]))
  }

  /**
   * The provider's state: whether a socket exists and is connected, the
   * signed-in user, the document joined, and the collaborators.
   */
  datatype Client = Client(
    hasSocket: bool,
    user: Option<(string, string)>,
    currentDocument: Option<string>,
    collaborators: seq<Peer>)

  /** What a callback does to the socket. */
  datatype Effect = Emit(request: Request) | Disconnect

  datatype Step = Step(client: Client, effects: seq<Effect>)

  /** `currentDocument` is set and not empty. */
  predicate InDocument(c: Client) {
    c.currentDocument.Some? && c.currentDocument.value != ""
  }

  /** `joinDocument(documentId)`: needs a socket and a signed-in user. */
  function JoinDocument(c: Client, documentId: string): Step {
    if c.hasSocket && c.user.Some? then
      Step(c.(currentDocument := Some(documentId)), [Emit(Request.JoinDocument(documentId, c.user.value.0, c.user.value.1))])
    else Step(c, [])
  }

  /** `leaveDocument()`: only with a socket and a current document. */
  function LeaveDocument(c: Client): Step {
    if c.hasSocket && InDocument(c) then Step(c.(currentDocument := None, collaborators := []), [Disconnect])
    else Step(c, [])
  }

  /**
   * Leaving clears the document and the collaborators (and disconnects)
   * exactly when a socket and a current document exist; otherwise nothing
   * happens. The socket itself stays, so later sends are refused.
   */
  lemma LeaveOnlyFromADocument(c: Client)
    ensures var r := LeaveDocument(c);
      && (c.hasSocket && InDocument(c) <==> r.effects == [Disconnect])
      && (c.hasSocket && InDocument(c) ==> r.client.currentDocument.None? && r.client.collaborators == []
                                           && r.client.hasSocket && r.client.user == c.user)
      && (!(c.hasSocket && InDocument(c)) ==> r.client == c && r.effects == [])
  {
  }

  /** `sendTextChange(delta, content)`. */
  function SendTextChange(c: Client, delta: Option<string>, content: string): seq<Effect> {
    if c.hasSocket && InDocument(c) then [Emit(TextChange(c.currentDocument.value, delta, content))] else []
  }

  /** `sendCursorChange(position)`. */
  function SendCursorChange(c: Client, position: int): seq<Effect> {
    if c.hasSocket && InDocument(c) then [Emit(CursorChange(c.currentDocument.value, position))] else []
  }

  /** `sendTitleChange(title)`. */
  function SendTitleChange(c: Client, title: string): seq<Effect> {
    if c.hasSocket && InDocument(c) then [Emit(TitleChange(c.currentDocument.value, title))] else []
  }

  /**
   * A text, cursor or title message goes out exactly when there is a socket
   * and a current document, and it names that document.
   */
  lemma SendsNeedSocketAndDocument(c: Client, delta: Option<string>, content: string, position: int, title: string)
    ensures var t := SendTextChange(c, delta, content);
      var k := SendCursorChange(c, position);
      var n := SendTitleChange(c, title);
      && (c.hasSocket && InDocument(c) <==> |t| == 1)
      && (c.hasSocket && InDocument(c) <==> |k| == 1)
      && (c.hasSocket && InDocument(c) <==> |n| == 1)
      && (|t| == 1 ==> t[0].Emit? && t[0].request.TextChange? && Some(t[0].request.documentId) == c.currentDocument)
      && (|k| == 1 ==> k[0].Emit? && k[0].request.CursorChange? && Some(k[0].request.documentId) == c.currentDocument)
      && (|n| == 1 ==> n[0].Emit? && n[0].request.TitleChange? && Some(n[0].request.documentId) == c.currentDocument)
      && |t| <= 1 && |k| <= 1 && |n| <= 1
  {
  }

  /**
   * Joining needs a socket and a signed-in user and then sends the user's id
   * and name; after a join, the client's text changes name the document it
   * joined, and the collaborators it knew are kept until the relay's lists arrive.
   */
  lemma JoinThenSend(c: Client, documentId: string, delta: Option<string>, content: string)
    ensures !(c.hasSocket && c.user.Some?) ==> JoinDocument(c, documentId) == Step(c, [])
    ensures c.hasSocket && c.user.Some? ==>
      && JoinDocument(c, documentId).effects == [Emit(Request.JoinDocument(documentId, c.user.value.0, c.user.value.1))]
      && JoinDocument(c, documentId).client.collaborators == c.collaborators
      && (documentId != "" ==> SendTextChange(JoinDocument(c, documentId).client, delta, content)
                                 == [Emit(TextChange(documentId, delta, content))])
  {
  }
}
