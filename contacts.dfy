/** A device address-book entry as the application handles it. */
module Contacts {
  import opened Wrappers

  /**
   * `id`, the optional display `name` and the phone numbers come from the
   * device; `relationship` and `group` are the application's own fields.
   */
  datatype Contact = Contact(
    id: string,
    name: Option<string>,
    phoneNumbers: seq<string>,
    relationship: Option<string>,
    group: Option<string>)

  /** `contact.name || ''`. */
  function NameOrEmpty(c: Contact): string {
    if c.name.Some? then c.name.value else ""
  }

  /** `contact.relationship || ''`. */
  function RelationshipOrEmpty(c: Contact): string {
    if c.relationship.Some? then c.relationship.value else ""
  }
}
