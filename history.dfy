/**
 * The meeting-history store of server/routes/tracking.ts: the append-only
 * `meetingHistory` array and `historyIdCounter`, with the add handler
 * (validation, then legacy-contact normalisation) and the paged list.
 */
module History {
  import opened Common
  import opened Text
  import opened Ids
  import opened Lists
  import opened Details

  const HistoryPrefix := "history_"
  const DefaultPage := 1
  const DefaultLimit := 10

  const MissingHistoryFields := "Session ID, employee ID, and meeting details are required"
  const CustomerRequired := "At least one customer contact is required"

  datatype HistoryEntry = HistoryEntry(
    id: string,
    sessionId: string,
    employeeId: string,
    meetingDetails: MeetingDetails,
    timestamp: Millis,
    leadId: Option<string>,
    leadInfo: Option<LeadInfo>)

  function IdOf(h: HistoryEntry): string {
    h.id
  }

  function TimeOf(h: HistoryEntry): int {
    h.timestamp
  }

  /** The employee filter: applies when the query names an employee. */
  predicate ForEmployee(h: HistoryEntry, employeeId: Option<string>)
    ensures !Truthy(employeeId) ==> ForEmployee(h, employeeId)
  {
    Truthy(employeeId) ==> h.employeeId == employeeId.value
  }

  /** The checks of addMeetingToHistory, in the order it makes them. */
  function Validate(sessionId: Option<string>, employeeId: Option<string>, details: Option<MeetingDetails>)
    : (r: Result<MeetingDetails>)
    ensures r.Ok? <==>
      && Truthy(sessionId) && Truthy(employeeId) && details.Some?
      && !(details.value.discussion.None? || IsBlank(details.value.discussion.value))
      && (HasCustomers(details.value) || HasLegacyContact(details.value))
    ensures r.Ok? ==> HasCustomers(r.value) && r.value == WithContacts(details.value)
    ensures !Truthy(sessionId) || !Truthy(employeeId) || details.None? ==> r == Invalid(MissingHistoryFields)
    ensures Truthy(sessionId) && Truthy(employeeId) && details.Some? && DiscussionMissing(details.value) ==>
      r == Invalid(DiscussionRequired)
    ensures && Truthy(sessionId) && Truthy(employeeId) && details.Some? && !DiscussionMissing(details.value)
            && !HasCustomers(details.value) && !HasLegacyContact(details.value)
            ==> r == Invalid(CustomerRequired)
    ensures r.NotFound? == false
  {
    if !Truthy(sessionId) || !Truthy(employeeId) || details.None? then Invalid(MissingHistoryFields)
    else
      var d := details.value;
      DiscussionMissingIffBlank(d);
      if DiscussionMissing(d) then Invalid(DiscussionRequired)
      else if !HasCustomers(d) && !HasLegacyContact(d) then Invalid(CustomerRequired)
      else Ok(WithContacts(d))
  }

  /** What one page holds: the employee's entries only, most recent first, and entries exactly up to the last page. */
  lemma PagingFacts(s: seq<HistoryEntry>, employeeId: Option<string>, page: nat, limit: nat)
    requires page >= 1 && limit >= 1
    ensures var all := SortDesc(Select(s, employeeId, ForEmployee), TimeOf);
      var found := PageOf(all, page, limit);
      && (|found| > 0 <==> page <= TotalPages(|all|, limit))
      && (forall k :: 0 <= k < |found| ==> found[k] in s && ForEmployee(found[k], employeeId))
      && SortedDesc(found, TimeOf)
  {
    var all := SortDesc(Select(s, employeeId, ForEmployee), TimeOf);
    PageNonEmpty(all, page, limit);
    PageSorted(all, page, limit, TimeOf);
    SortSelect(s, employeeId, ForEmployee, TimeOf);
  }

  class HistoryStore {
    var entries: seq<HistoryEntry>
    var counter: nat

    /** Ids are pairwise distinct and each was handed out by the counter. */
    ghost predicate IdsFresh()
      reads this
    {
      IdsIssued(entries, IdOf, HistoryPrefix, counter)
    }

    constructor ()
      ensures entries == [] && counter == 1
      ensures IdsFresh()
    {
      entries := [];
      counter := 1;
    }

    /** addMeetingToHistory. */
    method Add(sessionId: Option<string>, employeeId: Option<string>, details: Option<MeetingDetails>,
               leadId: Option<string>, leadInfo: Option<LeadInfo>, now: Millis)
      returns (r: Result<HistoryEntry>)
      modifies this
      ensures var v := Validate(sessionId, employeeId, details);
        if v.Ok? then
          && r == Ok(HistoryEntry(FormatId(HistoryPrefix, old(counter)), sessionId.value, employeeId.value,
                                  v.value, now, OrAbsent(leadId), leadInfo))
          && entries == old(entries) + [r.value]
          && counter == old(counter) + 1
        else
          r == Invalid(v.message) && entries == old(entries) && counter == old(counter)
      ensures old(IdsFresh()) ==> IdsFresh()
    {
      ghost var v := Validate(sessionId, employeeId, details);
      if !Truthy(sessionId) || !Truthy(employeeId) || details.None? {
        return Invalid(MissingHistoryFields);
      }
      var d := details.value;
      if d.discussion.None? || Trim(d.discussion.value) == "" {
        assert v == Invalid(DiscussionRequired);
        return Invalid(DiscussionRequired);
      }
      if d.customers.None? || |d.customers.value| == 0 {
        if !Truthy(d.customerName) || !Truthy(d.customerEmployeeName) {
          assert v == Invalid(CustomerRequired);
          return Invalid(CustomerRequired);
        }
        d := d.(customers := Some([LegacyContact(d)]));
      }
      assert v == Ok(d);
      var entry := HistoryEntry(FormatId(HistoryPrefix, counter), sessionId.value, employeeId.value,
                                d, now, OrAbsent(leadId), leadInfo);
      counter := counter + 1;
      entries := entries + [entry];
      r := Ok(entry);
      if old(IdsFresh()) {
        IssueNext(old(entries), entry, IdOf, HistoryPrefix, old(counter));
      }
    }

    /**
     * getMeetingHistory: the employee's entries, most recent first, cut
     * into pages of `limit`. With no employee filter the sort runs on the
     * store array itself.
     */
    method List(employeeId: Option<string>, page: Option<nat>, limit: Option<nat>)
      returns (found: seq<HistoryEntry>, total: nat, pageNum: nat, totalPages: nat)
      requires page.None? || page.value >= 1
      requires limit.None? || limit.value >= 1
      modifies this
      ensures counter == old(counter)
      ensures entries == if Truthy(employeeId) then old(entries) else SortDesc(old(entries), TimeOf)
      ensures var all := SortDesc(Select(old(entries), employeeId, ForEmployee), TimeOf);
        && total == |all|
        && pageNum == page.GetOr(DefaultPage)
        && totalPages == TotalPages(total, limit.GetOr(DefaultLimit))
        && found == PageOf(all, pageNum, limit.GetOr(DefaultLimit))
      ensures |found| > 0 <==> pageNum <= totalPages
      ensures forall k :: 0 <= k < |found| ==> found[k] in old(entries) && ForEmployee(found[k], employeeId)
      ensures SortedDesc(found, TimeOf)
      ensures old(IdsFresh()) ==> IdsFresh()
    {
      PagingFacts(entries, employeeId, page.GetOr(DefaultPage), limit.GetOr(DefaultLimit));
      var filtered;
      if Truthy(employeeId) {
        filtered := SortDesc(Select(entries, employeeId, ForEmployee), TimeOf);
      } else {
        // `filteredHistory` is the store array itself: the sort reorders the store
        SelectAll(entries, employeeId, ForEmployee);
        filtered := SortDesc(entries, TimeOf);
        if IdsFresh() {
          IssuedSort(entries, TimeOf, IdOf, HistoryPrefix, counter);
        }
        entries := filtered;
      }
      pageNum := page.GetOr(DefaultPage);
      var limitNum := limit.GetOr(DefaultLimit);
      found := PageOf(filtered, pageNum, limitNum);
      total := |filtered|;
      totalPages := TotalPages(total, limitNum);
    }
  }
}
