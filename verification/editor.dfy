/**
 * The document editor's own state (client/src/components/Editor/DocumentEditor.js):
 * how it takes the relay's document, remote text and title changes, how it
 * reports the user's own edits, and the "last saved" label.
 *
 * The handlers that flip the `isUpdatingFromSocket` flag and start timers are
 * methods of `EditorSession`; each timer's expiry is a method of its own, so
 * the order of events is the caller's choice.
 */
module Editor {
  import opened Wrappers
  import opened Text
  import opened Clock
  import opened Protocol
  import opened SocketClient
  import opened DocumentModel

  /** The relay's sender id is the local user's own: `data.userId !== user?.id` fails. */
  predicate Echo(senderId: Option<string>, localUser: Option<string>) {
    senderId == localUser
  }

  /** `data.title || 'Untitled Document'`. */
  function ShownTitle(title: Option<string>): (r: string)
    ensures r != ""
    ensures title.Some? && title.value != "" ==> r == title.value
    ensures title.None? || title == Some("") ==> r == DefaultTitle
  {
    if title.Some? && title.value != "" then title.value else DefaultTitle
  }

  /** The title after a received `title-change`: kept for an echo, else the shown form of the new one. */
  function RemoteTitle(current: string, senderId: Option<string>, localUser: Option<string>,
                       title: Option<string>): (r: string)
    ensures Echo(senderId, localUser) ==> r == current
    ensures !Echo(senderId, localUser) ==> r != "" && (title.Some? && title.value != "" ==> r == title.value)
    ensures !Echo(senderId, localUser) && (title.None? || title == Some("")) ==> r == DefaultTitle
  {
    if Echo(senderId, localUser) then current else ShownTitle(title)
  }

  /**
   * The relay's `title-change` carries only the title, so a signed-in user
   * always takes it (blank titles shown as "Untitled Document"), while with
   * nobody signed in the missing sender equals the missing user and the
   * change is dropped.
   */
  lemma RelayTitleIsAppliedWhenSignedIn(current: string, localUser: Option<string>, e: Event)
    requires e.TitleChanged?
    ensures localUser.Some? ==> RemoteTitle(current, None, localUser, Some(e.title)) == ShownTitle(Some(e.title))
    ensures localUser.None? ==> RemoteTitle(current, None, localUser, Some(e.title)) == current
  {
  }

  /** Whether a received `text-change` is applied to the editor: there is an editor and it is not an echo. */
  predicate AppliesText(hasEditor: bool, senderId: string, localUser: Option<string>) {
    hasEditor && !Echo(Some(senderId), localUser)
  }

  /**
   * The editor's document after a received `text-change`: the delta when
   * there is one, else the full content when it is not empty, else as it was.
   */
  function RemoteText(contents: string, hasEditor: bool, senderId: string, localUser: Option<string>,
                      delta: Option<string>, content: string, apply: (string, string) -> string): (r: string)
    ensures !AppliesText(hasEditor, senderId, localUser) ==> r == contents
    ensures AppliesText(hasEditor, senderId, localUser) && delta.Some? ==> r == apply(contents, delta.value)
    ensures AppliesText(hasEditor, senderId, localUser) && delta.None? && content != "" ==> r == content
    ensures delta.None? && content == "" ==> r == contents
  {
    if !AppliesText(hasEditor, senderId, localUser) then contents
    else if delta.Some? then apply(contents, delta.value)
    else if content != "" then content
    else contents
  }

  /**
   * The local user's own change, relayed back under the user's id, never
   * touches the editor, whatever it carries; a peer's change with a delta
   * is applied as the delta even when full content comes with it.
   */
  lemma OwnChangesAreIgnored(contents: string, hasEditor: bool, me: string, delta: Option<string>,
                             content: string, apply: (string, string) -> string, peer: string, d: string)
    requires hasEditor && peer != me
    ensures RemoteText(contents, hasEditor, me, Some(me), delta, content, apply) == contents
    ensures RemoteText(contents, hasEditor, peer, Some(me), Some(d), content, apply) == apply(contents, d)
  {
  }

  /** The title send waiting on its 500 ms timer, with the connection and socket state it captured. */
  datatype PendingTitle = PendingTitle(title: string, connected: bool, client: Client)

  /** `source === 'user'`: the editor reports an edit the user made. */
  const UserSource := "user"

  class EditorSession {
    /** The `content` state the editor is bound to. */
    var content: string
    /** What the editor shows; a relayed change is applied to it silently, bypassing `content`. */
    var editorContents: string
    var title: string
    /** The clock reading of the last save, `null` as `None`. */
    var lastSaved: Option<int>
    /** The `isUpdatingFromSocket` ref. */
    var updatingFromSocket: bool
    /** The `saving` state; a save-status timer is pending exactly while it is set. */
    var saving: bool
    var pendingTitle: Option<PendingTitle>

    /** The state on mount. */
    constructor ()
      ensures content == "" && editorContents == "" && title == "" && lastSaved.None?
      ensures !updatingFromSocket && !saving && pendingTitle.None?
    {
      content := "";
      editorContents := "";
      title := "";
      lastSaved := None;
      updatingFromSocket := false;
      saving := false;
      pendingTitle := None;
    }

    /**
     * `handleDocumentData`: the relay's copy replaces content, title and
     * last-saved time, and the flag is raised until its timer fires.
     */
    method OnDocumentData(e: Event)
      requires e.DocumentData?
      modifies this
      ensures content == e.content && editorContents == e.content
      ensures title == ShownTitle(Some(e.title)) && lastSaved == Some(e.lastModified)
      ensures updatingFromSocket
      ensures saving == old(saving) && pendingTitle == old(pendingTitle)
    {
      updatingFromSocket := true;
      content := e.content;
      editorContents := content;
      title := ShownTitle(Some(e.title));
      lastSaved := Some(e.lastModified);
    }

    /**
     * `handleTextChange`: a peer's change is applied to the editor and raises
     * the flag; the user's own change, or one that arrives before the editor
     * exists, changes nothing.
     */
    method OnRemoteTextChange(e: Event, hasEditor: bool, localUser: Option<string>,
                              apply: (string, string) -> string)
      requires e.TextChanged?
      modifies this
      ensures editorContents == RemoteText(old(editorContents), hasEditor, e.userId, localUser, e.delta, e.content, apply)
      ensures updatingFromSocket == (old(updatingFromSocket) || AppliesText(hasEditor, e.userId, localUser))
      ensures content == old(content) && title == old(title) && lastSaved == old(lastSaved)
      ensures saving == old(saving) && pendingTitle == old(pendingTitle)
    {
      if hasEditor && Some(e.userId) != localUser {
        updatingFromSocket := true;
        if e.delta.Some? {
          editorContents := apply(editorContents, e.delta.value);
        } else if e.content != "" {
          editorContents := e.content;
        }
      }
    }

    /** The 100 ms timer a relayed update started: the flag is lowered. */
    method SocketUpdateSettled()
      modifies this
      ensures !updatingFromSocket
      ensures content == old(content) && editorContents == old(editorContents) && title == old(title)
      ensures lastSaved == old(lastSaved) && saving == old(saving) && pendingTitle == old(pendingTitle)
    {
      updatingFromSocket := false;
    }

    /**
     * `handleTitleChange` of a received `title-change`: applied unless it is
     * an echo of the local user's own change.
     */
    method OnRemoteTitleChange(senderId: Option<string>, localUser: Option<string>, newTitle: Option<string>)
      modifies this
      ensures title == RemoteTitle(old(title), senderId, localUser, newTitle)
      ensures content == old(content) && editorContents == old(editorContents) && lastSaved == old(lastSaved)
      ensures updatingFromSocket == old(updatingFromSocket) && saving == old(saving)
      ensures pendingTitle == old(pendingTitle)
    {
      if senderId != localUser {
        title := ShownTitle(newTitle);
      }
    }

    /**
     * The title input's `handleTitleChange`: the title is shown at once and
     * its send is (re)scheduled, replacing any send still waiting, with the
     * connection and socket state of this moment.
     */
    method OnLocalTitleChange(newTitle: string, connected: bool, client: Client)
      modifies this
      ensures title == newTitle && pendingTitle == Some(PendingTitle(newTitle, connected, client))
      ensures content == old(content) && editorContents == old(editorContents) && lastSaved == old(lastSaved)
      ensures updatingFromSocket == old(updatingFromSocket) && saving == old(saving)
    {
      title := newTitle;
      pendingTitle := Some(PendingTitle(newTitle, connected, client));
    }

    /**
     * The 500 ms title timer: the last title typed goes out, once, if the
     * editor was connected and had a socket and a document when it was typed.
     */
    method TitleTimerFires() returns (effects: seq<Effect>)
      modifies this
      ensures pendingTitle.None?
      ensures old(pendingTitle).None? ==> effects == []
      ensures old(pendingTitle).Some? ==> var p := old(pendingTitle).value;
        effects == if p.connected then SendTitleChange(p.client, p.title) else []
      ensures |effects| <= 1
      ensures |effects| == 1 ==> var p := old(pendingTitle).value;
        && p.connected && p.client.hasSocket && InDocument(p.client)
        && effects[0] == Emit(TitleChange(p.client.currentDocument.value, p.title))
      ensures content == old(content) && editorContents == old(editorContents) && title == old(title)
      ensures lastSaved == old(lastSaved) && updatingFromSocket == old(updatingFromSocket) && saving == old(saving)
    {
      effects := [];
      if pendingTitle.Some? {
        var p := pendingTitle.value;
        if p.connected {
          effects := SendTitleChange(p.client, p.title);
          SendsNeedSocketAndDocument(p.client, None, "", 0, p.title);
        }
        pendingTitle := None;
      }
    }

    /**
     * `handleContentChange`: the editor reports its new document. Only an
     * edit by the user made while no relayed update is being applied is
     * taken: it becomes the content, is sent when connected, and starts the
     * save-status timer.
     */
    method OnLocalContentChange(html: string, delta: Option<string>, source: string, connected: bool,
                                client: Client) returns (effects: seq<Effect>)
      modifies this
      ensures editorContents == html
      ensures source == UserSource && !old(updatingFromSocket) ==>
        && content == html && saving
        && effects == if connected then SendTextChange(client, delta, html) else []
      ensures !(source == UserSource && !old(updatingFromSocket)) ==>
        content == old(content) && saving == old(saving) && effects == []
      ensures |effects| <= 1
      ensures |effects| == 1 ==>
        && source == UserSource && !old(updatingFromSocket) && connected && client.hasSocket && InDocument(client)
        && effects[0] == Emit(TextChange(client.currentDocument.value, delta, html))
      ensures title == old(title) && lastSaved == old(lastSaved)
      ensures updatingFromSocket == old(updatingFromSocket) && pendingTitle == old(pendingTitle)
    {
      editorContents := html;
      effects := [];
      if source == UserSource && !updatingFromSocket {
        content := html;
        if connected {
          effects := SendTextChange(client, delta, html);
          SendsNeedSocketAndDocument(client, delta, html, 0, "");
        }
        saving := true;
      }
    }

    /** The 1000 ms save-status timer, when one is pending: saving ends and the time is recorded. */
    method SaveTimerFires(now: int)
      modifies this
      ensures !saving
      ensures lastSaved == if old(saving) then Some(now) else old(lastSaved)
      ensures content == old(content) && editorContents == old(editorContents) && title == old(title)
      ensures updatingFromSocket == old(updatingFromSocket) && pendingTitle == old(pendingTitle)
    {
      if saving {
        saving := false;
        lastSaved := Some(now);
      }
    }
  }

  /** How `formatLastSaved` shows the last save. */
  datatype Saved = Never | JustNow | MinutesAgo(minutes: int) | HoursAgo(hours: int) | OnDate(ms: int)

  /** `formatLastSaved(lastSaved)` at time `now`, both in milliseconds. */
  function FormatLastSaved(lastSaved: Option<int>, now: int): Saved {
    if lastSaved.None? then Never
    else
      var seconds := (now - lastSaved.value) / SecondMs;
      if seconds < 60 then JustNow
      else if seconds < 3600 then MinutesAgo(seconds / 60)
      else if seconds < 86400 then HoursAgo(seconds / 3600)
      else OnDate(lastSaved.value)
  }

  /** The label shown; the calendar date's locale format is not modelled. */
  function SavedText(s: Saved): Option<string> {
    match s
    case Never => Some("Never")
    case JustNow => Some("Just now")
    case MinutesAgo(m) => Some(IntToString(m) + "m ago")
    case HoursAgo(h) => Some(IntToString(h) + "h ago")
    case OnDate(_) => None
  }

  /** Whole minutes and whole hours of the whole seconds are those of the milliseconds. */
  lemma SecondsToUnits(x: int)
    ensures (x / SecondMs) / 60 == x / MinuteMs
    ensures (x / SecondMs) / 3600 == x / HourMs
  {
  }

  /**
   * Without a save the label is "Never"; under a minute since it "Just now";
   * under an hour the whole minutes (1 to 59), under a day the whole hours
   * (1 to 23); from a day on the date. A save stamped in the future counts
   * as just now.
   */
  lemma LastSavedBuckets(lastSaved: Option<int>, now: int)
    ensures var s := FormatLastSaved(lastSaved, now);
      && (s.Never? <==> lastSaved.None?)
      && (s.JustNow? <==> lastSaved.Some? && now - lastSaved.value < MinuteMs)
      && (s.MinutesAgo? <==> lastSaved.Some? && MinuteMs <= now - lastSaved.value < HourMs)
      && (s.MinutesAgo? ==>
            1 <= s.minutes <= 59 && s.minutes * MinuteMs <= now - lastSaved.value < (s.minutes + 1) * MinuteMs)
      && (s.HoursAgo? <==> lastSaved.Some? && HourMs <= now - lastSaved.value < DayMs)
      && (s.HoursAgo? ==>
            1 <= s.hours <= 23 && s.hours * HourMs <= now - lastSaved.value < (s.hours + 1) * HourMs)
      && (s.OnDate? <==> lastSaved.Some? && now - lastSaved.value >= DayMs)
      && (s.OnDate? ==> s.ms == lastSaved.value)
  {
    if lastSaved.Some? {
      var x := now - lastSaved.value;
      SecondsToUnits(x);
    }
  }

  /** Orders the labels of a save: just now, then minutes, then hours, then the date. */
  function Staleness(s: Saved): int {
    match s
    case Never => 0
    case JustNow => 0
    case MinutesAgo(m) => m
    case HoursAgo(h) => 60 * h
    case OnDate(_) => 60 * 24
  }

  /** A later clock never shows the same save as more recent. */
  lemma LastSavedMonotone(lastSaved: Option<int>, now: int, later: int)
    requires now <= later
    ensures Staleness(FormatLastSaved(lastSaved, now)) <= Staleness(FormatLastSaved(lastSaved, later))
  {
    if lastSaved.Some? {
      var x, y := now - lastSaved.value, later - lastSaved.value;
      DivMonotone(x, y, SecondMs);
      var sx, sy := x / SecondMs, y / SecondMs;
      DivMonotone(sx, sy, 60);
      DivMonotone(sx, sy, 3600);
    }
  }
}
