/**
 * The tracking-session store of server/routes/tracking.ts: the
 * `trackingSessions` array and `sessionIdCounter`, with the create, update,
 * append-location, list, get and delete handlers. Every handler checks
 * its error cases before it writes anything, so an error leaves the store
 * as it was.
 */
module Sessions {
  import opened Common
  import opened Ids
  import opened Lists
  import opened Route

  const SessionPrefix := "session_"
  const ActiveStatus := "active"

  const MissingCreateFields := "Employee ID and start location are required"
  const MissingLocation := "Location is required"

  /** The fields an update body may carry; each one present replaces the stored one. */
  datatype SessionPatch = SessionPatch(
    id: Option<string>,
    employeeId: Option<string>,
    startTime: Option<Millis>,
    startLocation: Option<Location>,
    route: Option<seq<Location>>,
    totalDistance: Option<real>,
    status: Option<string>,
    endTime: Option<Millis>,
    duration: Option<int>)

  /** The list query: each filter applies when given; `limit` truncates. */
  datatype SessionQuery = SessionQuery(
    employeeId: Option<string>,
    status: Option<string>,
    startDate: Option<Millis>,
    endDate: Option<Millis>,
    limit: Option<nat>)

  function IdOf(s: Session): string {
    s.id
  }

  function StartOf(s: Session): int {
    s.startTime
  }

  /** A session passes every filter the query gives (date bounds inclusive). */
  predicate Matches(s: Session, q: SessionQuery)
    ensures Unfiltered(q) ==> Matches(s, q)
  {
    && (Truthy(q.employeeId) ==> s.employeeId == q.employeeId.value)
    && (Truthy(q.status) ==> s.status == q.status.value)
    && (q.startDate.Some? ==> q.startDate.value <= s.startTime)
    && (q.endDate.Some? ==> s.startTime <= q.endDate.value)
  }

  /** No filter is given, so the list handler works on the store array itself. */
  predicate Unfiltered(q: SessionQuery) {
    !Truthy(q.employeeId) && !Truthy(q.status) && q.startDate.None? && q.endDate.None?
  }

  /** `Math.floor((end - start) / 1000)`: whole seconds elapsed. */
  function DurationSeconds(start: Millis, end: Millis): (d: int)
    ensures d * 1000 <= end - start < d * 1000 + 1000
  {
    (end - start) / 1000
  }

  /** `{...stored, ...patch}`. */
  function Merge(s: Session, p: SessionPatch): Session {
    Session(
      p.id.GetOr(s.id),
      p.employeeId.GetOr(s.employeeId),
      p.startTime.GetOr(s.startTime),
      p.startLocation.GetOr(s.startLocation),
      p.route.GetOr(s.route),
      p.totalDistance.GetOr(s.totalDistance),
      p.status.GetOr(s.status),
      if p.endTime.Some? then p.endTime else s.endTime,
      if p.duration.Some? then p.duration else s.duration)
  }

  /**
   * What updateTrackingSession stores: if the payload's status is
   * "completed" and the session has no end time yet, the end time is now
   * and the duration is derived from the stored start time, whatever the
   * payload said for those two; then the payload is merged over the
   * stored session.
   */
  function Updated(s: Session, p: SessionPatch, now: Millis): (r: Session)
    ensures p.status == Some(CompletedStatus) && s.endTime.None? ==>
      && r.status == CompletedStatus
      && r.endTime == Some(now)
      && r.duration == Some(DurationSeconds(s.startTime, now))
    ensures !(p.status == Some(CompletedStatus) && s.endTime.None?) ==>
      && r.endTime == (if p.endTime.Some? then p.endTime else s.endTime)
      && r.duration == (if p.duration.Some? then p.duration else s.duration)
    ensures r.id == p.id.GetOr(s.id) && r.employeeId == p.employeeId.GetOr(s.employeeId)
    ensures r.startTime == p.startTime.GetOr(s.startTime)
    ensures r.startLocation == p.startLocation.GetOr(s.startLocation)
    ensures r.route == p.route.GetOr(s.route) && r.totalDistance == p.totalDistance.GetOr(s.totalDistance)
    ensures r.status == p.status.GetOr(s.status)
  {
    var p' :=
      if p.status == Some(CompletedStatus) && s.endTime.None?
      then p.(endTime := Some(now), duration := Some(DurationSeconds(s.startTime, now)))
      else p;
    Merge(s, p')
  }

  /** Completing a session a second time changes neither its end time nor its duration. */
  lemma RecompleteKeepsTiming(s: Session, now1: Millis, now2: Millis)
    requires s.endTime.None?
    ensures var p := SessionPatch(None, None, None, None, None, None, Some(CompletedStatus), None, None);
      var once := Updated(s, p, now1);
      var twice := Updated(once, p, now2);
      twice.endTime == once.endTime == Some(now1) && twice.duration == once.duration
  {
  }

  /** An update that leaves route and total alone keeps the total equal to the route's length. */
  lemma UpdatedTallied(s: Session, p: SessionPatch, now: Millis, dist: Distance)
    requires Tallied(s, dist) && p.route.None? && p.totalDistance.None?
    ensures Tallied(Updated(s, p, now), dist)
  {
  }

  /** Replacing one session by a tallied one keeps every tallied session tallied. */
  lemma ReplaceKeepsTallied(s: seq<Session>, i: nat, x: Session, dist: Distance)
    requires i < |s| && (Tallied(s[i], dist) ==> Tallied(x, dist))
    ensures forall k :: 0 <= k < |s| && Tallied(s[k], dist) ==> Tallied(s[i := x][k], dist)
  {
  }

  /** Replacing a session of an all-tallied store by a tallied one keeps the store all-tallied. */
  lemma ReplaceKeepsEveryTallied(s: seq<Session>, i: nat, x: Session, dist: Distance)
    requires i < |s| && EveryTallied(s, dist) && Tallied(x, dist)
    ensures EveryTallied(s[i := x], dist)
  {
  }

  /** Appending a tallied session keeps the store all-tallied. */
  lemma AppendKeepsTallied(s: seq<Session>, x: Session, dist: Distance)
    requires EveryTallied(s, dist) && Tallied(x, dist)
    ensures EveryTallied(s + [x], dist)
  {
  }

  /** Every session's total equals the length of its route. */
  ghost predicate EveryTallied(s: seq<Session>, dist: Distance) {
    forall k :: 0 <= k < |s| ==> Tallied(s[k], dist)
  }

  /** Sorting moves sessions but changes none, so every one stays tallied. */
  lemma SortKeepsTallied(s: seq<Session>, dist: Distance)
    requires EveryTallied(s, dist)
    ensures EveryTallied(SortDesc(s, StartOf), dist)
  {
    var r := SortDesc(s, StartOf);
    forall k | 0 <= k < |r| ensures Tallied(r[k], dist) {
      assert r[k] in multiset(s);
    }
  }

  /** Removing a session leaves the others tallied. */
  lemma RemoveKeepsTallied(s: seq<Session>, i: nat, dist: Distance)
    requires i < |s| && EveryTallied(s, dist)
    ensures EveryTallied(RemoveAt(s, i), dist)
  {
    var r := RemoveAt(s, i);
    forall k | 0 <= k < |r| ensures Tallied(r[k], dist) {
      if k < i {
        assert r[k] == s[k];
      } else {
        assert r[k] == s[k + 1];
      }
    }
  }

  /** What the list handler returns: matching sessions only, most recent first, all of them when no limit is given. */
  lemma ListingFacts(s: seq<Session>, q: SessionQuery)
    ensures var found := Take(SortDesc(Select(s, q, Matches), StartOf), q.limit);
      && (forall k :: 0 <= k < |found| ==> found[k] in s && Matches(found[k], q))
      && SortedDesc(found, StartOf)
      && (q.limit.None? ==> multiset(found) == multiset(Select(s, q, Matches)))
  {
    var sorted := SortDesc(Select(s, q, Matches), StartOf);
    SortedTake(sorted, StartOf, q.limit);
    SortSelect(s, q, Matches, StartOf);
    var found := Take(sorted, q.limit);
    assert forall k :: 0 <= k < |found| ==> found[k] == sorted[k];
  }

  class SessionStore {
    var sessions: seq<Session>
    var counter: nat
    const dist: Distance

    /** Ids are pairwise distinct and each was handed out by the counter. */
    ghost predicate IdsFresh()
      reads this
    {
      IdsIssued(sessions, IdOf, SessionPrefix, counter)
    }

    /** Every stored session's total distance equals the length of its route. */
    ghost predicate AllTallied()
      reads this
    {
      EveryTallied(sessions, dist)
    }

    constructor (dist: Distance)
      ensures sessions == [] && counter == 1 && this.dist == dist
      ensures IdsFresh() && AllTallied()
    {
      sessions := [];
      counter := 1;
      this.dist := dist;
    }

    /** createTrackingSession. */
    method Create(employeeId: Option<string>, startLocation: Option<Location>, now: Millis)
      returns (r: Result<Session>)
      modifies this
      ensures !Truthy(employeeId) || startLocation.None? ==>
        r == Invalid(MissingCreateFields) && sessions == old(sessions) && counter == old(counter)
      ensures Truthy(employeeId) && startLocation.Some? ==>
        && r == Ok(Session(FormatId(SessionPrefix, old(counter)), employeeId.value, now,
                           StampedAt(startLocation.value, now), [startLocation.value],
                           0.0, ActiveStatus, None, None))
        && sessions == old(sessions) + [r.value]
        && counter == old(counter) + 1
      ensures r.Ok? ==> Tallied(r.value, dist)
      ensures old(IdsFresh()) ==> IdsFresh()
      ensures old(AllTallied()) ==> AllTallied()
    {
      if !Truthy(employeeId) || startLocation.None? {
        return Invalid(MissingCreateFields);
      }
      var id := FormatId(SessionPrefix, counter);
      counter := counter + 1;
      var session := Session(id, employeeId.value, now, StampedAt(startLocation.value, now),
                             [startLocation.value], 0.0, ActiveStatus, None, None);
      sessions := sessions + [session];
      r := Ok(session);
      if old(IdsFresh()) {
        IssueNext(old(sessions), session, IdOf, SessionPrefix, old(counter));
      }
      if old(AllTallied()) {
        AppendKeepsTallied(old(sessions), session, dist);
      }
    }

    /** updateTrackingSession. */
    method Update(id: string, patch: SessionPatch, now: Millis) returns (r: Result<Session>)
      modifies this
      ensures counter == old(counter)
      ensures var i := IndexOf(old(sessions), id, IdOf);
        if i == -1 then r == NotFound && sessions == old(sessions)
        else
          && sessions == old(sessions)[i := Updated(old(sessions)[i], patch, now)]
          && r == Ok(sessions[i])
      ensures old(IdsFresh()) && patch.id.None? ==> IdsFresh()
      ensures old(AllTallied()) && patch.route.None? && patch.totalDistance.None? ==> AllTallied()
    {
      var i := IndexOf(sessions, id, IdOf);
      if i == -1 {
        return NotFound;
      }
      var updates := patch;
      if updates.status == Some(CompletedStatus) && sessions[i].endTime.None? {
        updates := updates.(endTime := Some(now));
        updates := updates.(duration := Some(DurationSeconds(sessions[i].startTime, now)));
      }
      var merged := Merge(sessions[i], updates);
      assert merged == Updated(sessions[i], patch, now);
      if Tallied(sessions[i], dist) && patch.route.None? && patch.totalDistance.None? {
        UpdatedTallied(sessions[i], patch, now, dist);
      }
      ReplaceAt(i, merged);
      r := Ok(merged);
    }

    /** addLocationToRoute: the missing location is reported before the unknown id. */
    method AddLocation(id: string, location: Option<Location>, now: Millis) returns (r: Result<Session>)
      modifies this
      ensures counter == old(counter)
      ensures location.None? ==> r == Invalid(MissingLocation) && sessions == old(sessions)
      ensures location.Some? ==>
        var i := IndexOf(old(sessions), id, IdOf);
        if i == -1 then r == NotFound && sessions == old(sessions)
        else
          && sessions == old(sessions)[i := Accumulate(old(sessions)[i], WithTimestamp(location.value, now), dist)]
          && r == Ok(sessions[i])
      ensures r.Ok? ==> |r.value.route| >= 1 && r.value.route[|r.value.route| - 1] == WithTimestamp(location.value, now)
      ensures forall k :: 0 <= k < |old(sessions)| && old(Tallied(sessions[k], dist)) ==> Tallied(sessions[k], dist)
      ensures old(AllTallied()) ==> AllTallied()
      ensures old(IdsFresh()) ==> IdsFresh()
    {
      if location.None? {
        return Invalid(MissingLocation);
      }
      var i := IndexOf(sessions, id, IdOf);
      if i == -1 {
        return NotFound;
      }
      var session := Appended(sessions[i], location.value, now);
      if Tallied(sessions[i], dist) {
        AccumulateTallied(sessions[i], WithTimestamp(location.value, now), dist);
      }
      ReplaceAt(i, session);
      r := Ok(session);
    }

    /** The stamp, push and distance update that addLocationToRoute makes on one session. */
    method Appended(s: Session, location: Location, now: Millis) returns (session: Session)
      ensures session == Accumulate(s, WithTimestamp(location, now), dist)
      ensures |session.route| >= 1 && session.route[|session.route| - 1] == WithTimestamp(location, now)
    {
      session := s;
      var sample := WithTimestamp(location, now);
      var route := session.route + [sample];
      var total := session.totalDistance;
      if |route| > 1 {
        var prev := route[|route| - 2];
        total := total + dist(prev.lat, prev.lng, location.lat, location.lng);
      }
      session := session.(route := route, totalDistance := total);
    }

    /** `trackingSessions[i] = x`: only the session at `i` changes. */
    method ReplaceAt(i: nat, x: Session)
      requires i < |sessions|
      modifies this
      ensures sessions == old(sessions)[i := x] && counter == old(counter)
      ensures old(IdsFresh()) && x.id == old(sessions)[i].id ==> IdsFresh()
      ensures (Tallied(old(sessions)[i], dist) ==> Tallied(x, dist)) ==>
        forall k :: 0 <= k < |old(sessions)| && old(Tallied(sessions[k], dist)) ==> Tallied(sessions[k], dist)
      ensures old(AllTallied()) && Tallied(x, dist) ==> AllTallied()
    {
      if IdsFresh() && x.id == sessions[i].id {
        IssuedUpdate(sessions, i, x, IdOf, SessionPrefix, counter);
      }
      if Tallied(sessions[i], dist) ==> Tallied(x, dist) {
        ReplaceKeepsTallied(sessions, i, x, dist);
      }
      if AllTallied() && Tallied(x, dist) {
        ReplaceKeepsEveryTallied(sessions, i, x, dist);
      }
      sessions := sessions[i := x];
    }

    /**
     * getTrackingSessions. With no filter the sort runs on the store
     * array itself, so the store is left in "most recent first" order.
     */
    method List(q: SessionQuery) returns (found: seq<Session>, total: nat)
      modifies this
      ensures counter == old(counter)
      ensures sessions == if Unfiltered(q) then SortDesc(old(sessions), StartOf) else old(sessions)
      ensures found == Take(SortDesc(Select(old(sessions), q, Matches), StartOf), q.limit)
      ensures total == |found|
      ensures forall k :: 0 <= k < |found| ==> found[k] in old(sessions) && Matches(found[k], q)
      ensures SortedDesc(found, StartOf)
      ensures q.limit.None? ==> multiset(found) == multiset(Select(old(sessions), q, Matches))
      ensures old(IdsFresh()) ==> IdsFresh()
      ensures old(AllTallied()) ==> AllTallied()
    {
      ListingFacts(sessions, q);
      var filtered;
      if !Unfiltered(q) {
        filtered := SortDesc(Select(sessions, q, Matches), StartOf);
      } else {
        // `filteredSessions` is the store array itself: the sort reorders the store
        SelectAll(sessions, q, Matches);
        SortStore();
        filtered := sessions;
      }
      found := Take(filtered, q.limit);
      total := |found|;
    }

    /** getTrackingSession. */
    method Get(id: string) returns (r: Result<Session>)
      ensures r.Invalid? == false
      ensures r.NotFound? <==> forall k :: 0 <= k < |sessions| ==> sessions[k].id != id
      ensures r.Ok? ==> r.value in sessions && r.value.id == id
      ensures r.Ok? ==> r.value == sessions[IndexOf(sessions, id, IdOf)]
    {
      var i := IndexOf(sessions, id, IdOf);
      if i == -1 {
        return NotFound;
      }
      r := Ok(sessions[i]);
    }

    /** deleteTrackingSession. */
    method Delete(id: string) returns (r: Result<()>)
      modifies this
      ensures counter == old(counter)
      ensures var i := IndexOf(old(sessions), id, IdOf);
        if i == -1 then r == NotFound && sessions == old(sessions)
        else r == Ok(()) && sessions == RemoveAt(old(sessions), i)
      ensures old(IdsFresh()) ==> IdsFresh() && forall k :: 0 <= k < |sessions| ==> sessions[k].id != id
      ensures old(AllTallied()) ==> AllTallied()
    {
      var i := IndexOf(sessions, id, IdOf);
      if i == -1 {
        return NotFound;
      }
      RemoveStoreAt(i);
      r := Ok(());
    }

    /** `filteredSessions.sort(...)` when the filtered list is the store itself. */
    method SortStore()
      modifies this
      ensures sessions == SortDesc(old(sessions), StartOf) && counter == old(counter)
      ensures old(IdsFresh()) ==> IdsFresh()
      ensures old(AllTallied()) ==> AllTallied()
    {
      if IdsFresh() {
        IssuedSort(sessions, StartOf, IdOf, SessionPrefix, counter);
      }
      if AllTallied() {
        SortKeepsTallied(sessions, dist);
      }
      sessions := SortDesc(sessions, StartOf);
    }

    /** `trackingSessions.splice(i, 1)`. */
    method RemoveStoreAt(i: nat)
      requires i < |sessions|
      modifies this
      ensures sessions == RemoveAt(old(sessions), i) && counter == old(counter)
      ensures old(IdsFresh()) ==> IdsFresh() && forall k :: 0 <= k < |sessions| ==> sessions[k].id != old(sessions)[i].id
      ensures old(AllTallied()) ==> AllTallied()
    {
      if IdsFresh() {
        IssuedRemove(sessions, i, IdOf, SessionPrefix, counter);
      }
      if AllTallied() {
        RemoveKeepsTallied(sessions, i, dist);
      }
      sessions := RemoveAt(sessions, i);
    }
  }
}
