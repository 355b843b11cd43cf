/**
 * The meeting-log store of server/routes/meetings.ts: the `meetings`
 * array and `meetingIdCounter`, with the create, update, list, get and
 * delete handlers. An update on an unknown id is reported before the
 * payload is validated, and a refused payload writes nothing.
 */
module Meetings {
  import opened Common
  import opened Text
  import opened Ids
  import opened Lists
  import opened Details

  const MeetingPrefix := "meeting_"
  const InProgressStatus := "in-progress"

  const MissingCreateFields := "Employee ID and location are required"

  datatype MeetingLog = MeetingLog(
    id: string,
    employeeId: string,
    location: Location,
    startTime: Millis,
    clientName: Option<string>,
    notes: Option<string>,
    status: string,
    endTime: Option<Millis>,
    leadId: Option<string>,
    leadInfo: Option<LeadInfo>,
    meetingDetails: Option<MeetingDetails>)

  /** The fields an update body may carry; each one present replaces the stored one. */
  datatype MeetingPatch = MeetingPatch(
    id: Option<string>,
    employeeId: Option<string>,
    location: Option<Location>,
    startTime: Option<Millis>,
    clientName: Option<string>,
    notes: Option<string>,
    status: Option<string>,
    endTime: Option<Millis>,
    leadId: Option<string>,
    leadInfo: Option<LeadInfo>,
    meetingDetails: Option<MeetingDetails>)

  /** The list query: each filter applies when given. */
  datatype MeetingQuery = MeetingQuery(
    employeeId: Option<string>,
    status: Option<string>,
    startDate: Option<Millis>,
    endDate: Option<Millis>)

  function IdOf(m: MeetingLog): string {
    m.id
  }

  function StartOf(m: MeetingLog): int {
    m.startTime
  }

  /** A meeting passes every filter the query gives (date bounds inclusive). */
  predicate Matches(m: MeetingLog, q: MeetingQuery)
    ensures Unfiltered(q) ==> Matches(m, q)
  {
    && (Truthy(q.employeeId) ==> m.employeeId == q.employeeId.value)
    && (Truthy(q.status) ==> m.status == q.status.value)
    && (q.startDate.Some? ==> q.startDate.value <= m.startTime)
    && (q.endDate.Some? ==> m.startTime <= q.endDate.value)
  }

  /** No filter is given, so the list handler works on the store array itself. */
  predicate Unfiltered(q: MeetingQuery) {
    !Truthy(q.employeeId) && !Truthy(q.status) && q.startDate.None? && q.endDate.None?
  }

  /** The payload carries meeting details whose discussion is missing or blank. */
  predicate Rejected(p: MeetingPatch) {
    p.meetingDetails.Some? && DiscussionMissing(p.meetingDetails.value)
  }

  /** A payload field if present, else the stored one. */
  function Pick<T>(given: Option<T>, stored: Option<T>): Option<T> {
    if given.Some? then given else stored
  }

  /** `{...stored, ...patch}`. */
  function Merge(m: MeetingLog, p: MeetingPatch): MeetingLog {
    MeetingLog(
      p.id.GetOr(m.id),
      p.employeeId.GetOr(m.employeeId),
      p.location.GetOr(m.location),
      p.startTime.GetOr(m.startTime),
      Pick(p.clientName, m.clientName),
      Pick(p.notes, m.notes),
      p.status.GetOr(m.status),
      Pick(p.endTime, m.endTime),
      Pick(p.leadId, m.leadId),
      Pick(p.leadInfo, m.leadInfo),
      Pick(p.meetingDetails, m.meetingDetails))
  }

  /**
   * What updateMeeting stores when it accepts the payload: if the
   * payload's status is "completed" and the meeting has no end time yet,
   * the end time is now, whatever the payload said; then the payload is
   * merged over the stored meeting.
   */
  function Updated(m: MeetingLog, p: MeetingPatch, now: Millis): (r: MeetingLog)
    ensures p.status == Some(CompletedStatus) && m.endTime.None? ==>
      r.status == CompletedStatus && r.endTime == Some(now)
    ensures !(p.status == Some(CompletedStatus) && m.endTime.None?) ==>
      r.endTime == (if p.endTime.Some? then p.endTime else m.endTime)
    ensures r.id == p.id.GetOr(m.id) && r.employeeId == p.employeeId.GetOr(m.employeeId)
    ensures r.location == p.location.GetOr(m.location) && r.startTime == p.startTime.GetOr(m.startTime)
    ensures r.status == p.status.GetOr(m.status)
    ensures r.meetingDetails == (if p.meetingDetails.Some? then p.meetingDetails else m.meetingDetails)
    ensures r.clientName == (if p.clientName.Some? then p.clientName else m.clientName)
    ensures r.notes == (if p.notes.Some? then p.notes else m.notes)
    ensures r.leadId == (if p.leadId.Some? then p.leadId else m.leadId)
    ensures r.leadInfo == (if p.leadInfo.Some? then p.leadInfo else m.leadInfo)
  {
    var p' := if p.status == Some(CompletedStatus) && m.endTime.None? then p.(endTime := Some(now)) else p;
    Merge(m, p')
  }

  /** Completing a meeting a second time does not move its end time. */
  lemma RecompleteKeepsEndTime(m: MeetingLog, now1: Millis, now2: Millis)
    requires m.endTime.None?
    ensures var p := MeetingPatch(None, None, None, None, None, None, Some(CompletedStatus), None, None, None, None);
      Updated(Updated(m, p, now1), p, now2).endTime == Some(now1)
  {
  }

  /** Meeting details a store accepts never have a blank discussion. */
  lemma AcceptedDetailsHaveDiscussion(m: MeetingLog, p: MeetingPatch, now: Millis)
    requires !Rejected(p)
    requires m.meetingDetails.Some? ==> !DiscussionMissing(m.meetingDetails.value)
    ensures var r := Updated(m, p, now);
      r.meetingDetails.Some? ==> r.meetingDetails.value.discussion.Some? && !IsBlank(r.meetingDetails.value.discussion.value)
  {
    var r := Updated(m, p, now);
    if r.meetingDetails.Some? {
      DiscussionMissingIffBlank(r.meetingDetails.value);
    }
  }

  class MeetingStore {
    var meetings: seq<MeetingLog>
    var counter: nat

    /** Ids are pairwise distinct and each was handed out by the counter. */
    ghost predicate IdsFresh()
      reads this
    {
      IdsIssued(meetings, IdOf, MeetingPrefix, counter)
    }

    constructor ()
      ensures meetings == [] && counter == 1
      ensures IdsFresh()
    {
      meetings := [];
      counter := 1;
    }

    /** createMeeting. */
    method Create(employeeId: Option<string>, location: Option<Location>, clientName: Option<string>,
                  notes: Option<string>, leadId: Option<string>, leadInfo: Option<LeadInfo>, now: Millis)
      returns (r: Result<MeetingLog>)
      modifies this
      ensures !Truthy(employeeId) || location.None? ==>
        r == Invalid(MissingCreateFields) && meetings == old(meetings) && counter == old(counter)
      ensures Truthy(employeeId) && location.Some? ==>
        && r == Ok(MeetingLog(FormatId(MeetingPrefix, old(counter)), employeeId.value,
                              StampedAt(location.value, now), now, clientName, notes,
                              InProgressStatus, None, OrAbsent(leadId), leadInfo, None))
        && meetings == old(meetings) + [r.value]
        && counter == old(counter) + 1
      ensures old(IdsFresh()) ==> IdsFresh()
    {
      if !Truthy(employeeId) || location.None? {
        return Invalid(MissingCreateFields);
      }
      var meeting := MeetingLog(FormatId(MeetingPrefix, counter), employeeId.value,
                                StampedAt(location.value, now), now, clientName, notes,
                                InProgressStatus, None, OrAbsent(leadId), leadInfo, None);
      counter := counter + 1;
      meetings := meetings + [meeting];
      r := Ok(meeting);
      if old(IdsFresh()) {
        IssueNext(old(meetings), meeting, IdOf, MeetingPrefix, old(counter));
      }
    }

    /** updateMeeting: unknown id first, then the discussion check, then the merge. */
    method Update(id: string, patch: MeetingPatch, now: Millis) returns (r: Result<MeetingLog>)
      modifies this
      ensures counter == old(counter)
      ensures var i := IndexOf(old(meetings), id, IdOf);
        if i == -1 then r == NotFound && meetings == old(meetings)
        else if Rejected(patch) then r == Invalid(DiscussionRequired) && meetings == old(meetings)
        else
          && meetings == old(meetings)[i := Updated(old(meetings)[i], patch, now)]
          && r == Ok(meetings[i])
      ensures old(IdsFresh()) && patch.id.None? ==> IdsFresh()
    {
      var i := IndexOf(meetings, id, IdOf);
      if i == -1 {
        return NotFound;
      }
      var updates := patch;
      if updates.status == Some(CompletedStatus) && meetings[i].endTime.None? {
        updates := updates.(endTime := Some(now));
      }
      if updates.meetingDetails.Some? {
        var d := updates.meetingDetails.value;
        if d.discussion.None? || Trim(d.discussion.value) == "" {
          return Invalid(DiscussionRequired);
        }
      }
      var merged := Merge(meetings[i], updates);
      assert merged == Updated(old(meetings)[i], patch, now);
      if IdsFresh() && patch.id.None? {
        IssuedUpdate(meetings, i, merged, IdOf, MeetingPrefix, counter);
      }
      meetings := meetings[i := merged];
      r := Ok(merged);
    }

    /**
     * getMeetings. With no filter the sort runs on the store array
     * itself, so the store is left in "most recent first" order.
     */
    method List(q: MeetingQuery) returns (found: seq<MeetingLog>, total: nat)
      modifies this
      ensures counter == old(counter)
      ensures meetings == if Unfiltered(q) then SortDesc(old(meetings), StartOf) else old(meetings)
      ensures found == SortDesc(Select(old(meetings), q, Matches), StartOf)
      ensures total == |found|
      ensures forall k :: 0 <= k < |found| ==> found[k] in old(meetings) && Matches(found[k], q)
      ensures forall k :: 0 <= k < |old(meetings)| && Matches(old(meetings)[k], q) ==> old(meetings)[k] in found
      ensures SortedDesc(found, StartOf)
      ensures old(IdsFresh()) ==> IdsFresh()
    {
      if !Unfiltered(q) {
        found := SortDesc(Select(meetings, q, Matches), StartOf);
      } else {
        // `filteredMeetings` is the store array itself: the sort reorders the store
        SelectAll(meetings, q, Matches);
        found := SortDesc(meetings, StartOf);
        if IdsFresh() {
          IssuedSort(meetings, StartOf, IdOf, MeetingPrefix, counter);
        }
        meetings := found;
      }
      total := |found|;
      SortSelect(old(meetings), q, Matches, StartOf);
    }

    /** getMeeting. */
    method Get(id: string) returns (r: Result<MeetingLog>)
      ensures r.Invalid? == false
      ensures r.NotFound? <==> forall k :: 0 <= k < |meetings| ==> meetings[k].id != id
      ensures r.Ok? ==> r.value in meetings && r.value.id == id
      ensures r.Ok? ==> r.value == meetings[IndexOf(meetings, id, IdOf)]
    {
      var i := IndexOf(meetings, id, IdOf);
      if i == -1 {
        return NotFound;
      }
      r := Ok(meetings[i]);
    }

    /** deleteMeeting. */
    method Delete(id: string) returns (r: Result<()>)
      modifies this
      ensures counter == old(counter)
      ensures var i := IndexOf(old(meetings), id, IdOf);
        if i == -1 then r == NotFound && meetings == old(meetings)
        else r == Ok(()) && meetings == RemoveAt(old(meetings), i)
      ensures old(IdsFresh()) ==> IdsFresh() && forall k :: 0 <= k < |meetings| ==> meetings[k].id != id
    {
      var i := IndexOf(meetings, id, IdOf);
      if i == -1 {
        return NotFound;
      }
      if IdsFresh() {
        IssuedRemove(meetings, i, IdOf, MeetingPrefix, counter);
      }
      meetings := RemoveAt(meetings, i);
      r := Ok(());
    }
  }
}
