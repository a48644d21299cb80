/** The stored document record (models/Document.js) and its schema defaults. */
module DocumentModel {
  import opened Wrappers

  /** The schema default title, also used by the relay, the REST routes and the editor. */
  const DefaultTitle: string := "Untitled Document"

  /** The `permission` enum of a collaborator entry. */
  datatype Permission = Read | Write | Admin

  datatype Collaborator = Collaborator(userId: string, permission: Permission)

  /**
   * A stored document. `owner` is `None` for a document the relay created on a
   * join (its creation passes no owner). `lastModified` is a clock reading in
   * milliseconds.
   */
  datatype Doc = Doc(
    id: string,
    title: string,
    content: string,
    owner: Option<string>,
    collaborators: seq<Collaborator>,
    isPublic: bool,
    lastModified: int)

  /**
   * The schema's `required` validator on `title`, which every `save` runs
   * over the whole record: Mongoose refuses the empty string. Writes made
   * with `findByIdAndUpdate` skip it, so a stored title can be empty.
   */
  predicate ValidForSave(d: Doc) {
    d.title != ""
  }
}
