/**
 * The dashboard's list logic (client/src/components/Dashboard/Dashboard.js):
 * the title search, the list after a delete, the relative dates and the
 * request that creates a document.
 */
module Dashboard {
  import opened Wrappers
  import opened Text
  import opened Seqs
  import opened DocumentModel
  import opened Clock
  import DocumentRoutes

  /** The title contains the term, ignoring case. */
  predicate TitleMatches(d: Doc, term: string) {
    Includes(Lower(d.title), Lower(term))
  }

  /** `filterDocuments()`: everything for an empty term, else the documents whose title matches. */
  function FilterDocuments(docs: seq<Doc>, term: string): seq<Doc> {
    if term == "" then docs else Filter(docs, (d: Doc) => TitleMatches(d, term))
  }

  /**
   * An empty term shows the list unchanged; otherwise a document is shown
   * exactly when its title matches, and the shown documents keep the list's
   * order (filtering a list made of two parts filters each part).
   */
  lemma FilterKeepsExactlyTheMatches(docs: seq<Doc>, more: seq<Doc>, term: string)
    ensures term == "" ==> FilterDocuments(docs, term) == docs
    ensures term != "" ==> forall d :: d in FilterDocuments(docs, term) <==> d in docs && TitleMatches(d, term)
    ensures FilterDocuments(docs + more, term) == FilterDocuments(docs, term) + FilterDocuments(more, term)
  {
    if term != "" {
      FilterAppend(docs, more, (d: Doc) => TitleMatches(d, term));
    }
  }

  /** A term matches a title whatever the capitalisation of either. */
  lemma MatchIgnoresCase(d: Doc, term: string)
    ensures TitleMatches(d, term) == TitleMatches(d.(title := Upper(d.title)), Upper(term))
  {
    LowerUpper(d.title);
    LowerUpper(term);
  }

  /** The list after deleting `id`: every document with that id goes, the rest stay in order. */
  function AfterDelete(docs: seq<Doc>, id: string): (r: seq<Doc>)
    ensures forall d :: d in r <==> d in docs && d.id != id
    ensures forall i :: 0 <= i < |r| ==> r[i].id != id
    ensures forall d: Doc :: d.id != id ==> multiset(r)[d] == multiset(docs)[d]
  {
    var r := Filter(docs, (d: Doc) => d.id != id);
    assert forall i :: 0 <= i < |r| ==> r[i] in r;
    r
  }

  /**
   * The documents that stay keep their order: deleting from a list made of
   * two parts deletes from each part, and a one-document list keeps its
   * document exactly when the id differs.
   */
  lemma AfterDeleteKeepsOrder(docs: seq<Doc>, more: seq<Doc>, d: Doc, id: string)
    ensures AfterDelete(docs + more, id) == AfterDelete(docs, id) + AfterDelete(more, id)
    ensures AfterDelete([d], id) == if d.id == id then [] else [d]
  {
    FilterAppend(docs, more, (x: Doc) => x.id != id);
    assert [d][1..] == [];
  }

  /** Deleting an id that is not shown leaves the list as it was. */
  lemma DeleteAbsentIsNoop(docs: seq<Doc>, id: string)
    requires forall i :: 0 <= i < |docs| ==> docs[i].id != id
    ensures AfterDelete(docs, id) == docs
  {
  }


  /** How `formatDate` shows a time: hours or days ago, or the calendar date. */
  datatype Age = HoursAgo(hours: int) | DaysAgo(days: int) | OnDate(ms: int)

  /** `formatDate(date)` at time `now`, both in milliseconds. */
  function FormatDate(date: int, now: int): Age {
    var diff := now - date;
    if diff < 24 * HourMs then HoursAgo(diff / HourMs)
    else if diff < 7 * DayMs then DaysAgo(diff / DayMs)
    else OnDate(date)
  }

  /** The text shown; the calendar date's locale format is not modelled. */
  function AgeText(a: Age): Option<string> {
    match a
    case HoursAgo(h) => Some(IntToString(h) + "h ago")
    case DaysAgo(d) => Some(IntToString(d) + "d ago")
    case OnDate(_) => None
  }

  /**
   * Under a day the whole hours elapsed (at most 23; a time in the future
   * counts down below 0), under a week the whole days (1 to 6), and the
   * date otherwise.
   */
  lemma FormatDateBuckets(date: int, now: int)
    ensures var a := FormatDate(date, now);
      && (now - date < DayMs <==> a.HoursAgo?)
      && (a.HoursAgo? ==> a.hours <= 23 && a.hours * HourMs <= now - date < (a.hours + 1) * HourMs)
      && (DayMs <= now - date < 7 * DayMs <==> a.DaysAgo?)
      && (a.DaysAgo? ==> 1 <= a.days <= 6 && a.days * DayMs <= now - date < (a.days + 1) * DayMs)
      && (a.OnDate? <==> now - date >= 7 * DayMs)
  {
  }

  /** A later clock never shows a time as more recent. */
  lemma FormatDateMonotone(date: int, now: int, later: int)
    requires now <= later
    ensures Rank(FormatDate(date, now)) <= Rank(FormatDate(date, later))
  {
    var diff, diff' := now - date, later - date;
    if diff' < DayMs {
      DivMonotone(diff, diff', HourMs);
    } else if diff' < 7 * DayMs && diff >= DayMs {
      DivMonotone(diff, diff', DayMs);
    }
  }

  /** Orders the shown ages: hours before days before a date, and by count within a kind. */
  function Rank(a: Age): int {
    match a
    case HoursAgo(h) => h
    case DaysAgo(d) => 24 * d
    case OnDate(_) => 24 * 7
  }

  /** `handleCreateDocument()`: the body sent to create a document. */
  datatype CreateRequest = CreateRequest(title: string, content: string, userId: string)

  function NewDocumentRequest(userId: string): CreateRequest {
    CreateRequest(DefaultTitle, "", userId)
  }

  /**
   * The request creates, for a signed-in user, a private document titled
   * "Untitled Document" with no content, owned by that user.
   */
  lemma NewDocumentDefaults(c: DocumentRoutes.Collection, newId: string, userId: string, now: int)
    requires userId != "" && DocumentRoutes.Find(c, newId).None?
    ensures var req := NewDocumentRequest(userId);
      var resp := DocumentRoutes.CreateDocument(c, newId, Some(req.title), Some(req.content), Some(req.userId), None, now);
      && resp.result.Ok?
      && resp.result.value.title == DefaultTitle && resp.result.value.content == ""
      && resp.result.value.owner == Some(userId) && !resp.result.value.isPublic
  {
  }
}
