/**
 * Meeting details as clients send them: a discussion text and a list of
 * customer contacts, or, from older clients, a single contact spread over
 * legacy top-level fields. Both the history store and the meeting store
 * refuse details whose discussion is missing or blank.
 */
module Details {
  import opened Common
  import opened Text

  /** The refusal both stores give for a missing or blank discussion. */
  const DiscussionRequired := "Discussion details are required"

  datatype CustomerContact = CustomerContact(
    customerName: string,
    customerEmployeeName: string,
    customerEmail: Option<string>,
    customerMobile: Option<string>,
    customerDesignation: Option<string>,
    customerDepartment: Option<string>)

  datatype MeetingDetails = MeetingDetails(
    discussion: Option<string>,
    customers: Option<seq<CustomerContact>>,
    // legacy single-contact fields
    customerName: Option<string>,
    customerEmployeeName: Option<string>,
    customerEmail: Option<string>,
    customerMobile: Option<string>,
    customerDesignation: Option<string>,
    customerDepartment: Option<string>)

  /** `!d.discussion || !d.discussion.trim()`. */
  predicate DiscussionMissing(d: MeetingDetails) {
    d.discussion.None? || Trim(d.discussion.value) == ""
  }

  /** The discussion is missing exactly when it is absent or made only of whitespace. */
  lemma DiscussionMissingIffBlank(d: MeetingDetails)
    ensures DiscussionMissing(d) <==> d.discussion.None? || IsBlank(d.discussion.value)
  {
    if d.discussion.Some? {
      TrimEmptyIffBlank(d.discussion.value);
    }
  }

  /** `d.customers && d.customers.length > 0`. */
  predicate HasCustomers(d: MeetingDetails) {
    d.customers.Some? && |d.customers.value| > 0
  }

  /** Both legacy fields that name a contact are truthy. */
  predicate HasLegacyContact(d: MeetingDetails) {
    Truthy(d.customerName) && Truthy(d.customerEmployeeName)
  }

  /** The one contact built from the legacy fields, the optional ones defaulting to "". */
  function LegacyContact(d: MeetingDetails): (c: CustomerContact)
    requires HasLegacyContact(d)
    ensures c.customerName == d.customerName.value && c.customerEmployeeName == d.customerEmployeeName.value
    ensures c.customerEmail.Some? && c.customerMobile.Some?
    ensures c.customerDesignation.Some? && c.customerDepartment.Some?
    ensures Truthy(d.customerEmail) ==> c.customerEmail == d.customerEmail
    ensures !Truthy(d.customerEmail) ==> c.customerEmail == Some("")
    ensures Truthy(d.customerMobile) ==> c.customerMobile == d.customerMobile
    ensures !Truthy(d.customerMobile) ==> c.customerMobile == Some("")
    ensures Truthy(d.customerDesignation) ==> c.customerDesignation == d.customerDesignation
    ensures !Truthy(d.customerDesignation) ==> c.customerDesignation == Some("")
    ensures Truthy(d.customerDepartment) ==> c.customerDepartment == d.customerDepartment
    ensures !Truthy(d.customerDepartment) ==> c.customerDepartment == Some("")
  {
    CustomerContact(
      d.customerName.value,
      d.customerEmployeeName.value,
      Some(OrEmpty(d.customerEmail)),
      Some(OrEmpty(d.customerMobile)),
      Some(OrEmpty(d.customerDesignation)),
      Some(OrEmpty(d.customerDepartment)))
  }

  /**
   * The details as stored: an empty or missing contact list is replaced by
   * the one legacy contact; nothing else changes, the legacy fields stay.
   */
  function WithContacts(d: MeetingDetails): (r: MeetingDetails)
    requires HasCustomers(d) || HasLegacyContact(d)
    ensures HasCustomers(r)
    ensures r.(customers := d.customers) == d
    ensures HasCustomers(d) ==> r == d
    ensures !HasCustomers(d) ==> r.customers == Some([LegacyContact(d)])
  {
    if HasCustomers(d) then d else d.(customers := Some([LegacyContact(d)]))
  }
}
