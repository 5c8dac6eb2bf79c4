/** The incident lifecycle as a whole: every operation that changes the store keeps
    the store invariant, in particular that replaying an incident's history from
    `pending` reconstructs its current status. */
module Lifecycle {
  import opened Wrappers
  import opened Errors
  import opened Seqs
  import opened Sorting
  import opened Users
  import opened Permissions
  import opened Incidents
  import opened Serializers
  import opened IncidentViews

  lemma EmptyStoreIsValid()
    ensures Valid(EmptyStore)
  {
  }

  /** Creating an incident keeps the store valid; the new incident has no history
      and is pending. */
  lemma CreatePreservesValid(
    st: Store, input: IncidentInput, actor: Principal,
    uploadsEnabled: bool, uploaded: UploadResult, now: Timestamp)
    requires Valid(st)
    requires CreateIncident(st, input, actor, uploadsEnabled, uploaded, now).Success?
    ensures var c := CreateIncident(st, input, actor, uploadsEnabled, uploaded, now).value;
      Valid(c.store) && HistoryOf(c.store.history, c.incident.id) == []
  {
    var c := CreateIncident(st, input, actor, uploadsEnabled, uploaded, now).value;
    var inc := c.incident;
    var st' := c.store;
    assert st'.incidents == st.incidents + [inc];
    forall i, j | 0 <= i < j < |st'.incidents| ensures st'.incidents[i].id != st'.incidents[j].id {
      assert st'.incidents[i] == st.incidents[i];
      assert st.incidents[i] in st.incidents;
      if j < |st.incidents| {
        assert st'.incidents[j] == st.incidents[j];
      }
    }
    forall x | x in st'.incidents
      ensures x.id < st'.nextIncidentId
      ensures Replay(Pending, HistoryOf(st'.history, x.id)) == Some(x.status)
    {
      if x != inc {
        assert x in st.incidents;
      }
    }
  }

  /** Saving a status change keeps the store valid. For the changed incident this
      is the replay step: its history grows by one row leaving from the old status
      and arriving at the new one; every other incident's history is untouched. */
  lemma SaveStatusPreservesValid(st: Store, id: IncidentId, change: StatusChange, actor: Principal, now: Timestamp)
    requires Valid(st)
    requires Find(st.incidents, id).Some?
    ensures Valid(SaveStatus(st, id, change, actor, now))
  {
    var i := Find(st.incidents, id).value;
    var st' := SaveStatus(st, id, change, actor, now);
    var e := st'.history[|st.history|];
    assert st'.history == st.history + [e];
    AppendedStepPreservesValid(st, st', i, e);
  }

  /** The store-level shape of a status change: one incident changes status along
      an appended row leaving from its old status, nothing else changes. */
  lemma AppendedStepPreservesValid(st: Store, st': Store, i: nat, e: StatusHistory)
    requires Valid(st)
    requires i < |st.incidents| && |st'.incidents| == |st.incidents|
    requires forall j | 0 <= j < |st.incidents| && j != i :: st'.incidents[j] == st.incidents[j]
    requires st'.incidents[i].id == st.incidents[i].id == e.incident
    requires e.oldStatus == st.incidents[i].status && st'.incidents[i].status == e.newStatus
    requires st'.history == st.history + [e] && st'.nextIncidentId == st.nextIncidentId
    ensures Valid(st')
  {
    forall j, k | 0 <= j < k < |st'.incidents| ensures st'.incidents[j].id != st'.incidents[k].id {
      assert st'.incidents[j].id == st.incidents[j].id && st'.incidents[k].id == st.incidents[k].id;
    }
    forall x | x in st'.incidents
      ensures x.id < st'.nextIncidentId
      ensures Replay(Pending, HistoryOf(st'.history, x.id)) == Some(x.status)
    {
      var j :| 0 <= j < |st'.incidents| && st'.incidents[j] == x;
      assert st.incidents[j] in st.incidents;
      if j != i {
        assert st.incidents[j].id != e.incident;
      }
      StepKeepsReplay(st.history, e, st.incidents[j], x, e.incident);
    }
    forall h | h in st'.history ensures h.incident < st'.nextIncidentId {
      if h != e {
        assert h in st.history;
      }
    }
  }

  /** One appended history row, seen from a single incident: the changed incident
      moves along the row, any other incident's replay is unaffected. */
  lemma StepKeepsReplay(hs: seq<StatusHistory>, e: StatusHistory, before: Incident, after: Incident, id: IncidentId)
    requires Replay(Pending, HistoryOf(hs, before.id)) == Some(before.status)
    requires e.incident == id && after.id == before.id
    requires before.id == id ==> e.oldStatus == before.status && after.status == e.newStatus
    requires before.id != id ==> after.status == before.status
    ensures Replay(Pending, HistoryOf(hs + [e], after.id)) == Some(after.status)
  {
    ReplayAfterAppend(hs, e, before.id, before.status);
  }

  /** The status-update endpoint keeps the store valid. */
  lemma UpdateStatusPreservesValid(st: Store, id: IncidentId, p: Principal, data: StatusInput, now: Timestamp)
    requires Valid(st)
    requires UpdateStatusView(st, id, p, data, now).Success?
    ensures Valid(UpdateStatusView(st, id, p, data, now).value.store)
  {
    SaveStatusPreservesValid(st, id, ValidateStatusUpdate(data).value, p, now);
  }

  /** Deleting an incident keeps the store valid: the remaining incidents keep
      exactly their own history. */
  lemma DeleteIncidentPreservesValid(st: Store, id: IncidentId)
    requires Valid(st)
    ensures Valid(DeleteIncident(st, id))
  {
    var st' := DeleteIncident(st, id);
    FilterKeepsKeysDistinct(st.incidents, OtherIncident(id), IdOf);
    forall x | x in st'.incidents
      ensures Replay(Pending, HistoryOf(st'.history, x.id)) == Some(x.status)
    {
      FilterNarrowing(st.history, RowNotOf(id), RowOf(x.id));
    }
  }

  /** Two history sequences that agree row by row on incident and statuses; they
      may differ in comment, actor, time and id. */
  ghost predicate SameSteps(a: seq<StatusHistory>, b: seq<StatusHistory>) {
    && |a| == |b|
    && forall k | 0 <= k < |a| ::
         a[k].incident == b[k].incident && a[k].oldStatus == b[k].oldStatus && a[k].newStatus == b[k].newStatus
  }

  lemma {:induction false} SameStepsTail(a: seq<StatusHistory>, b: seq<StatusHistory>)
    requires SameSteps(a, b) && |a| > 0
    ensures SameSteps(a[1..], b[1..])
  {
    forall k | 0 <= k < |a| - 1
      ensures a[1..][k].incident == b[1..][k].incident
      ensures a[1..][k].oldStatus == b[1..][k].oldStatus && a[1..][k].newStatus == b[1..][k].newStatus
    {
      assert a[1..][k] == a[k + 1] && b[1..][k] == b[k + 1];
    }
  }

  /** Selecting one incident's rows from row-by-row equivalent histories gives
      row-by-row equivalent results. */
  lemma {:induction false} HistoryOfSameSteps(hs: seq<StatusHistory>, hs': seq<StatusHistory>, id: IncidentId)
    requires SameSteps(hs, hs')
    ensures SameSteps(HistoryOf(hs, id), HistoryOf(hs', id))
  {
    if |hs| > 0 {
      SameStepsTail(hs, hs');
      HistoryOfSameSteps(hs[1..], hs'[1..], id);
      var rest, rest' := HistoryOf(hs[1..], id), HistoryOf(hs'[1..], id);
      if hs[0].incident == id {
        assert HistoryOf(hs, id) == [hs[0]] + rest;
        assert HistoryOf(hs', id) == [hs'[0]] + rest';
        forall k | 1 <= k < |rest| + 1
          ensures ([hs[0]] + rest)[k] == rest[k - 1] && ([hs'[0]] + rest')[k] == rest'[k - 1]
        {
        }
      } else {
        assert HistoryOf(hs, id) == rest;
        assert HistoryOf(hs', id) == rest';
      }
    }
  }

  /** Replay looks only at the statuses of the rows. */
  lemma {:induction false} ReplaySameSteps(start: Status, a: seq<StatusHistory>, b: seq<StatusHistory>)
    requires SameSteps(a, b)
    ensures Replay(start, a) == Replay(start, b)
    decreases |a|
  {
    if |a| > 0 {
      SameStepsTail(a, b);
      ReplaySameSteps(a[0].newStatus, a[1..], b[1..]);
    }
  }

  /** Deleting a user changes no incident id, so ids stay unique. */
  lemma DeleteUserKeepsIds(st: Store, uid: UserId)
    requires UniqueIds(st.incidents)
    ensures UniqueIds(DeleteUser(st, uid).incidents)
  {
    var r := DeleteUser(st, uid).incidents;
    forall i, j | 0 <= i < j < |r| ensures IdOf(r[i]) != IdOf(r[j]) {
      assert r[i].id == st.incidents[i].id && r[j].id == st.incidents[j].id;
    }
  }

  /** Deleting a user changes only the actor of history rows. */
  lemma DeleteUserKeepsSteps(st: Store, uid: UserId)
    ensures SameSteps(st.history, DeleteUser(st, uid).history)
  {
  }

  /** Deleting a user keeps the store valid. */
  lemma DeleteUserPreservesValid(st: Store, uid: UserId)
    requires Valid(st)
    ensures Valid(DeleteUser(st, uid))
  {
    var st' := DeleteUser(st, uid);
    DeleteUserKeepsIds(st, uid);
    DeleteUserKeepsSteps(st, uid);
    forall x | x in st'.incidents
      ensures x.id < st'.nextIncidentId
      ensures Replay(Pending, HistoryOf(st'.history, x.id)) == Some(x.status)
    {
      var j :| 0 <= j < |st'.incidents| && st'.incidents[j] == x;
      assert st.incidents[j] in st.incidents;
      HistoryOfSameSteps(st.history, st'.history, x.id);
      ReplaySameSteps(Pending, HistoryOf(st.history, x.id), HistoryOf(st'.history, x.id));
    }
    forall h | h in st'.history ensures h.incident < st'.nextIncidentId {
      var k :| 0 <= k < |st'.history| && st'.history[k] == h;
      assert st.history[k] in st.history;
    }
  }

  /** The status of every incident of a valid store is what its history replays to,
      and its latest history row, if any, arrived at that status. */
  lemma CurrentStatusFromHistory(st: Store, inc: Incident)
    requires Valid(st)
    requires inc in st.incidents
    ensures Replay(Pending, HistoryOf(st.history, inc.id)) == Some(inc.status)
    ensures var hs := HistoryOf(st.history, inc.id);
      |hs| == 0 ==> inc.status == Pending
    ensures var hs := HistoryOf(st.history, inc.id);
      |hs| > 0 ==> hs[|hs| - 1].newStatus == inc.status
  {
    var hs := HistoryOf(st.history, inc.id);
    ReplayEndsAtLastTarget(Pending, hs, inc.status);
  }

  lemma {:induction false} ReplayEndsAtLastTarget(start: Status, hs: seq<StatusHistory>, end: Status)
    requires Replay(start, hs) == Some(end)
    ensures |hs| == 0 ==> end == start
    ensures |hs| > 0 ==> hs[|hs| - 1].newStatus == end
    decreases |hs|
  {
    if |hs| > 1 {
      ReplayEndsAtLastTarget(hs[0].newStatus, hs[1..], end);
      assert hs[1..][|hs[1..]| - 1] == hs[|hs| - 1];
    }
  }

  /** A walkthrough: an anonymous citizen reports a pothole at time 100; an admin
      moves it to `in_review` at 200 and to `resolved` at 300, then reads its history. */
  const Ops: Principal := Authenticated(7, "ops", "", Some(Admin), false, false)
  const PotholeInput: IncidentInput :=
    IncidentInput(Some("Pothole"), Some("Deep hole"), Some("road"), None, None, None, None, false, None)
  const Pothole: Incident := Incident(1, "Pothole", "Deep hole", Road, "", None, None, "", None, Pending, 100, 100)
  const Reviewing: StatusHistory := StatusHistory(1, 1, Pending, InReview, "checking", Some(7), 200)
  const Resolving: StatusHistory := StatusHistory(2, 1, InReview, Resolved, "", Some(7), 300)
  const Reported: Store := Store([Pothole], [], 2, 1)
  const Reviewed: Store := Store([Pothole.(status := InReview, updatedAt := 200)], [Reviewing], 2, 2)
  const Closed: Store := Store([Pothole.(status := Resolved, updatedAt := 300)], [Reviewing, Resolving], 2, 3)

  /** The report is created pending, with no reporter and category "road". */
  lemma WalkthroughReport()
    ensures CreateIncident(EmptyStore, PotholeInput, Anonymous, false, Uploaded(None, None), 100)
         == Success(Created(Reported, Pothole))
  {
    assert ParseCategory("road") == Some(Road);
    assert ValidInput(PotholeInput);
    var r := CreateIncident(EmptyStore, PotholeInput, Anonymous, false, Uploaded(None, None), 100);
    assert r.Success?;
    assert r.value.incident == Pothole;
    assert r.value.store == Reported;
  }

  /** The first review step logs pending to in_review with the comment. */
  lemma WalkthroughReview()
    ensures var r := UpdateStatusView(Reported, 1, Ops, StatusInput(Some("in_review"), Some("checking")), 200);
      r.Success? && r.value.store == Reviewed && r.value.incident.status == InReview
  {
  }

  /** The second step logs in_review to resolved with the default empty comment. */
  lemma WalkthroughResolve()
    ensures var r := UpdateStatusView(Reviewed, 1, Ops, StatusInput(Some("resolved"), None), 300);
      r.Success? && r.value.store == Closed && r.value.incident.status == Resolved
  {
  }

  /** Both rows of the closed store belong to the pothole, oldest first. */
  lemma ClosedHistory()
    ensures HistoryOf(Closed.history, 1) == [Reviewing, Resolving]
  {
    assert [Reviewing, Resolving][1..] == [Resolving];
    assert [Resolving][1..] == [];
    assert Filter([Resolving], RowOf(1)) == [Resolving];
  }

  /** The history, newest first: in_review to resolved, then pending to in_review;
      anonymous readers are refused. */
  lemma WalkthroughHistory()
    ensures HistoryView(Closed, 1, Ops) == Success([Resolving, Reviewing])
    ensures HistoryView(Closed, 1, Anonymous) == Failure(Unauthenticated)
  {
    ClosedHistory();
    assert [Reviewing, Resolving][1..] == [Resolving];
    assert [Resolving][1..] == [];
    assert SortByKey([Resolving], ChangedNewestFirst) == [Resolving];
    assert Insert(Reviewing, [], ChangedNewestFirst) == [Reviewing];
    assert Insert(Reviewing, [Resolving], ChangedNewestFirst) == [Resolving, Reviewing];
    assert HistoryDefaultOrder([Reviewing, Resolving]) == [Resolving, Reviewing];
  }

  /** The walkthrough ends in a valid store whose incident is resolved. */
  lemma WalkthroughEndsValid()
    ensures Valid(Closed) && Closed.incidents[0].status == Resolved
  {
    ClosedHistory();
    assert [Reviewing, Resolving][1..] == [Resolving];
    assert [Resolving][1..] == [];
    assert Replay(Resolved, []) == Some(Resolved);
    assert Replay(InReview, [Resolving]) == Some(Resolved);
    assert Replay(Pending, [Reviewing, Resolving]) == Some(Resolved);
  }
}
