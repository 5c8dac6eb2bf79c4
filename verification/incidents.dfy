/** The data model of reports/models.py: incidents, their status history, and the
    store that holds both. */
module Incidents {
  import opened Wrappers
  import opened Seqs
  import opened Sorting
  import opened Users

  datatype Status = Pending | InReview | Resolved | Rejected

  /** Every status, in declaration order. */
  const AllStatuses: seq<Status> := [Pending, InReview, Resolved, Rejected]

  /** The stored value of each status. */
  function StatusName(s: Status): string {
    match s
    case Pending => "pending"
    case InReview => "in_review"
    case Resolved => "resolved"
    case Rejected => "rejected"
  }

  /** The values the status column accepts. */
  const StatusChoices: set<string> := {"pending", "in_review", "resolved", "rejected"}

  /** Reads a stored or submitted status value; the inverse of `StatusName`. */
  function ParseStatus(x: string): (r: Option<Status>)
    ensures r.Some? <==> x in StatusChoices
    ensures r.Some? ==> StatusName(r.value) == x
    ensures forall s: Status :: StatusName(s) == x ==> r == Some(s)
  {
    if x == "pending" then Some(Pending)
    else if x == "in_review" then Some(InReview)
    else if x == "resolved" then Some(Resolved)
    else if x == "rejected" then Some(Rejected)
    else None
  }

  datatype Category = Road | Electricity | Water | Sanitation | Safety | Other

  /** Every category, in declaration order. */
  const AllCategories: seq<Category> := [Road, Electricity, Water, Sanitation, Safety, Other]

  const DefaultCategory: Category := Other

  function CategoryName(c: Category): string {
    match c
    case Road => "road"
    case Electricity => "electricity"
    case Water => "water"
    case Sanitation => "sanitation"
    case Safety => "safety"
    case Other => "other"
  }

  const CategoryChoices: set<string> := {"road", "electricity", "water", "sanitation", "safety", "other"}

  /** Reads a stored or submitted category value; the inverse of `CategoryName`. */
  function ParseCategory(x: string): (r: Option<Category>)
    ensures r.Some? <==> x in CategoryChoices
    ensures r.Some? ==> CategoryName(r.value) == x
    ensures forall c: Category :: CategoryName(c) == x ==> r == Some(c)
  {
    if x == "road" then Some(Road)
    else if x == "electricity" then Some(Electricity)
    else if x == "water" then Some(Water)
    else if x == "sanitation" then Some(Sanitation)
    else if x == "safety" then Some(Safety)
    else if x == "other" then Some(Other)
    else None
  }

  /** Each status and each category is one of its listed values, and the listed
      values are pairwise different. */
  lemma EnumerationsAreComplete(s: Status, c: Category)
    ensures s in AllStatuses && c in AllCategories
    ensures NoDuplicates(AllStatuses) && NoDuplicates(AllCategories)
    ensures StatusName(s) in StatusChoices && CategoryName(c) in CategoryChoices
  {
  }

  const TitleMaxLength: nat := 180
  const CityMaxLength: nat := 120

  /** A title the `max_length` and non-blank rules admit. */
  predicate ValidTitle(t: string) {
    0 < |t| <= TitleMaxLength
  }

  type IncidentId = nat

  /** Seconds since the epoch, in UTC. */
  type Timestamp = nat

  /** Days since the epoch. */
  type Day = nat

  const SecondsPerDay: nat := 86400

  /** The date part of a timestamp. */
  function DateOf(t: Timestamp): Day {
    t / SecondsPerDay
  }

  /** Latitude and longitude are kept as opaque integers (millionths of a degree). */
  datatype Incident = Incident(
    id: IncidentId,
    title: string,
    description: string,
    category: Category,
    city: string,
    latitude: Option<int>,
    longitude: Option<int>,
    imageUrl: string,
    reporter: Option<UserId>,
    status: Status,
    createdAt: Timestamp,
    updatedAt: Timestamp)

  datatype StatusHistory = StatusHistory(
    id: nat,
    incident: IncidentId,
    oldStatus: Status,
    newStatus: Status,
    comment: string,
    changedBy: Option<UserId>,
    changedAt: Timestamp)

  /** Both tables, each in insertion order, and the next primary keys. */
  datatype Store = Store(
    incidents: seq<Incident>,
    history: seq<StatusHistory>,
    nextIncidentId: IncidentId,
    nextHistoryId: nat)

  const EmptyStore: Store := Store([], [], 1, 1)

  /** A new row with the model's defaults: status pending, category "other",
      empty city and image URL, both timestamps set to `now`. */
  function NewIncident(
    id: IncidentId, title: string, description: string, category: Option<Category>,
    city: Option<string>, latitude: Option<int>, longitude: Option<int>,
    imageUrl: Option<string>, reporter: Option<UserId>, now: Timestamp): Incident
  {
    Incident(id, title, description, category.GetOr(DefaultCategory), city.GetOr(""),
             latitude, longitude, imageUrl.GetOr(""), reporter, Pending, now, now)
  }

  /** The position of the incident with the given id. */
  function Find(incs: seq<Incident>, id: IncidentId): (r: Option<nat>)
    ensures r.Some? ==> r.value < |incs| && incs[r.value].id == id
    ensures r.None? <==> forall i | 0 <= i < |incs| :: incs[i].id != id
  {
    if |incs| == 0 then None
    else if incs[0].id == id then Some(0)
    else match Find(incs[1..], id)
      case Some(k) => Some(k + 1)
      case None => None
  }

  function IdOf(inc: Incident): IncidentId {
    inc.id
  }

  /** Selects the incidents other than `id`. */
  function OtherIncident(id: IncidentId): Incident -> bool {
    (inc: Incident) => inc.id != id
  }

  /** Selects the history rows of incident `id`. */
  function RowOf(id: IncidentId): StatusHistory -> bool {
    (h: StatusHistory) => h.incident == id
  }

  /** Selects the history rows of incidents other than `id`. */
  function RowNotOf(id: IncidentId): StatusHistory -> bool {
    (h: StatusHistory) => h.incident != id
  }

  /** The history rows of one incident, oldest first (`incident.history`). */
  function HistoryOf(hs: seq<StatusHistory>, id: IncidentId): (r: seq<StatusHistory>)
    ensures forall h :: h in r <==> h in hs && h.incident == id
    ensures IsSubsequence(r, hs)
  {
    Filter(hs, RowOf(id))
  }

  lemma HistoryOfAppend(hs: seq<StatusHistory>, e: StatusHistory, id: IncidentId)
    ensures HistoryOf(hs + [e], id) == HistoryOf(hs, id) + (if e.incident == id then [e] else [])
  {
    FilterAppend(hs, [e], RowOf(id));
    assert [e][1..] == [];
  }

  /** Replays history rows from `start`: each row must leave from the status the
      previous one reached. None when the rows do not chain. */
  function Replay(start: Status, hs: seq<StatusHistory>): Option<Status>
    decreases |hs|
  {
    if |hs| == 0 then Some(start)
    else if hs[0].oldStatus != start then None
    else Replay(hs[0].newStatus, hs[1..])
  }

  /** Appending a row that leaves from the replayed status moves the replay to its target. */
  lemma {:induction false} ReplayAppend(start: Status, hs: seq<StatusHistory>, e: StatusHistory, current: Status)
    requires Replay(start, hs) == Some(current)
    requires e.oldStatus == current
    ensures Replay(start, hs + [e]) == Some(e.newStatus)
    decreases |hs|
  {
    if |hs| == 0 {
      assert hs + [e] == [e];
      assert [e][1..] == [];
    } else {
      assert (hs + [e])[1..] == hs[1..] + [e];
      ReplayAppend(hs[0].newStatus, hs[1..], e, current);
    }
  }

  /** Appending a row to the history: an incident the row does not belong to
      replays as before; the incident it belongs to moves to the row's target,
      provided the row leaves from the status replay had reached. */
  lemma ReplayAfterAppend(hs: seq<StatusHistory>, e: StatusHistory, id: IncidentId, current: Status)
    requires Replay(Pending, HistoryOf(hs, id)) == Some(current)
    ensures e.incident != id ==> Replay(Pending, HistoryOf(hs + [e], id)) == Some(current)
    ensures e.incident == id && e.oldStatus == current ==>
      Replay(Pending, HistoryOf(hs + [e], id)) == Some(e.newStatus)
  {
    HistoryOfAppend(hs, e, id);
    if e.incident != id {
      assert HistoryOf(hs + [e], id) == HistoryOf(hs, id) + [] == HistoryOf(hs, id);
    } else if e.oldStatus == current {
      ReplayAppend(Pending, HistoryOf(hs, id), e, current);
    }
  }

  /** Ids are unique. */
  ghost predicate UniqueIds(incs: seq<Incident>) {
    KeysDistinct(incs, IdOf)
  }

  /** The store invariant: keys are unique and allocated, history rows belong to
      allocated incidents, and each incident's history, replayed oldest first from
      `pending`, chains and ends at the incident's current status. */
  ghost predicate Valid(st: Store) {
    && UniqueIds(st.incidents)
    && (forall inc | inc in st.incidents :: inc.id < st.nextIncidentId)
    && (forall h | h in st.history :: h.incident < st.nextIncidentId)
    && (forall inc | inc in st.incidents :: Replay(Pending, HistoryOf(st.history, inc.id)) == Some(inc.status))
  }

  /** The default ordering of incidents, newest `created_at` first. */
  function NewestFirst(inc: Incident): int {
    -(inc.createdAt as int)
  }

  /** The ordering requested by `?ordering=created_at`, oldest first. */
  function OldestFirst(inc: Incident): int {
    inc.createdAt
  }

  /** The default ordering of history rows, newest `changed_at` first. */
  function ChangedNewestFirst(h: StatusHistory): int {
    -(h.changedAt as int)
  }

  /** All incidents in the model's default order. */
  function DefaultOrder(incs: seq<Incident>): (r: seq<Incident>)
    ensures multiset(r) == multiset(incs)
    ensures forall i, j | 0 <= i < j < |r| :: r[i].createdAt >= r[j].createdAt
  {
    var r := SortByKey(incs, NewestFirst);
    assert forall i, j | 0 <= i < j < |r| :: NewestFirst(r[i]) <= NewestFirst(r[j]);
    r
  }

  /** History rows in the model's default order. */
  function HistoryDefaultOrder(hs: seq<StatusHistory>): (r: seq<StatusHistory>)
    ensures multiset(r) == multiset(hs)
    ensures forall i, j | 0 <= i < j < |r| :: r[i].changedAt >= r[j].changedAt
  {
    var r := SortByKey(hs, ChangedNewestFirst);
    assert forall i, j | 0 <= i < j < |r| :: ChangedNewestFirst(r[i]) <= ChangedNewestFirst(r[j]);
    r
  }

  /** Deleting an incident (`on_delete=CASCADE` on `StatusHistory.incident`): the
      incident and exactly its history rows go, everything else stays in order. */
  function DeleteIncident(st: Store, id: IncidentId): (r: Store)
    ensures forall inc :: inc in r.incidents <==> inc in st.incidents && inc.id != id
    ensures forall h :: h in r.history <==> h in st.history && h.incident != id
    ensures forall inc :: multiset(r.incidents)[inc] == if inc.id == id then 0 else multiset(st.incidents)[inc]
    ensures forall h :: multiset(r.history)[h] == if h.incident == id then 0 else multiset(st.history)[h]
    ensures IsSubsequence(r.incidents, st.incidents) && IsSubsequence(r.history, st.history)
    ensures r.nextIncidentId == st.nextIncidentId && r.nextHistoryId == st.nextHistoryId
  {
    forall inc ensures multiset(Filter(st.incidents, OtherIncident(id)))[inc] ==
                       if inc.id == id then 0 else multiset(st.incidents)[inc] {
      FilterMultiplicity(st.incidents, OtherIncident(id), inc);
    }
    forall h ensures multiset(Filter(st.history, RowNotOf(id)))[h] ==
                     if h.incident == id then 0 else multiset(st.history)[h] {
      FilterMultiplicity(st.history, RowNotOf(id), h);
    }
    st.(incidents := Filter(st.incidents, OtherIncident(id)),
        history := Filter(st.history, RowNotOf(id)))
  }

  /** A user reference after the user `uid` is deleted (`on_delete=SET_NULL`). */
  function Unlink(ref: Option<UserId>, uid: UserId): Option<UserId> {
    if ref == Some(uid) then None else ref
  }

  /** Deleting a user: every `reporter` and `changed_by` that named the user is
      cleared, and nothing else changes. */
  function DeleteUser(st: Store, uid: UserId): (r: Store)
    ensures |r.incidents| == |st.incidents| && |r.history| == |st.history|
    ensures r.nextIncidentId == st.nextIncidentId && r.nextHistoryId == st.nextHistoryId
    ensures forall i | 0 <= i < |r.incidents| ::
      && r.incidents[i].reporter != Some(uid)
      && (st.incidents[i].reporter == Some(uid) ==> r.incidents[i].reporter.None?)
      && r.incidents[i] == st.incidents[i].(reporter := r.incidents[i].reporter)
      && (st.incidents[i].reporter != Some(uid) ==> r.incidents[i] == st.incidents[i])
    ensures forall k | 0 <= k < |r.history| ::
      && r.history[k].changedBy != Some(uid)
      && (st.history[k].changedBy == Some(uid) ==> r.history[k].changedBy.None?)
      && r.history[k] == st.history[k].(changedBy := r.history[k].changedBy)
      && (st.history[k].changedBy != Some(uid) ==> r.history[k] == st.history[k])
  {
    st.(incidents := seq(|st.incidents|, i requires 0 <= i < |st.incidents| =>
          st.incidents[i].(reporter := Unlink(st.incidents[i].reporter, uid))),
        history := seq(|st.history|, k requires 0 <= k < |st.history| =>
          st.history[k].(changedBy := Unlink(st.history[k].changedBy, uid))))
  }
}
