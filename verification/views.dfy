/** `IncidentViewSet` of reports/views.py: which permission and serializer each
    action uses, the filtered listing, retrieval, status update and history. */
module IncidentViews {
  import opened Wrappers
  import opened Errors
  import opened Seqs
  import opened Sorting
  import opened Text
  import opened Users
  import opened Permissions
  import opened Incidents
  import opened Serializers

  datatype Action = CreateAction | ListAction | RetrieveAction | UpdateStatusAction | HistoryAction

  /** The DRF permission classes the viewset hands out. */
  datatype PermissionClass = AllowAny | AdminRoleOnly | IsAuthenticatedOrReadOnly

  /** Whether a permission class admits a principal using an HTTP verb. */
  predicate Allows(pc: PermissionClass, p: Principal, verb: string) {
    match pc
    case AllowAny => true
    case AdminRoleOnly => IsAdminRole(p)
    case IsAuthenticatedOrReadOnly => verb in SafeMethods || p.Authenticated?
  }

  /** `get_permissions` as written. It ignores the `permission_classes` given to the
      `history` action's decorator, so `history` gets the fallback class. */
  function GetPermissionsAsWritten(a: Action): PermissionClass {
    if a in {CreateAction, ListAction, RetrieveAction} then AllowAny
    else if a == UpdateStatusAction then AdminRoleOnly
    else IsAuthenticatedOrReadOnly
  }

  /** As written, anyone, anonymous included, may read an incident's history. */
  lemma HistoryIsPublicAsWritten()
    ensures Allows(GetPermissionsAsWritten(HistoryAction), Anonymous, "GET")
    ensures !IsAdminRole(Anonymous)
  {
  }

  /** `get_permissions` with the `history` action's own `permission_classes`
      honoured: the permission the rest of this model uses. */
  function GetPermissions(a: Action): PermissionClass {
    if a in {CreateAction, ListAction, RetrieveAction} then AllowAny
    else if a == HistoryAction then AdminRoleOnly
    else GetPermissionsAsWritten(a)
  }

  /** Create, list and retrieve are open to every principal; status updates and
      history are open exactly to principals passing `IsAdminRole`, whatever verb. */
  lemma ActionPolicy(a: Action, p: Principal, verb: string)
    ensures a in {CreateAction, ListAction, RetrieveAction} ==> Allows(GetPermissions(a), p, verb)
    ensures a in {UpdateStatusAction, HistoryAction} ==> (Allows(GetPermissions(a), p, verb) <==> IsAdminRole(p))
    ensures a != HistoryAction ==> GetPermissions(a) == GetPermissionsAsWritten(a)
  {
  }

  datatype SerializerKind = CreateSerializer | StatusUpdateSerializer | HistorySerializer | ReadSerializer

  /** `get_serializer_class`. */
  function SerializerFor(a: Action): SerializerKind {
    match a
    case CreateAction => CreateSerializer
    case UpdateStatusAction => StatusUpdateSerializer
    case HistoryAction => HistorySerializer
    case _ => ReadSerializer
  }

  /** The fields each serializer reads from a request body. */
  function WritableFields(k: SerializerKind): set<string> {
    match k
    case CreateSerializer => {"title", "description", "category", "city", "latitude", "longitude", "image", "image_url"}
    case StatusUpdateSerializer => {"status", "comment"}
    case HistorySerializer => {"old_status", "new_status", "comment"}
    case ReadSerializer => {"title", "description", "category", "city", "latitude", "longitude", "image_url"}
  }

  /** Only the status-update action reads a `status` from the client: creating an
      incident cannot set it, and the read serializer marks it read-only. */
  lemma StatusWritableOnlyByStatusUpdate(a: Action)
    ensures "status" in WritableFields(SerializerFor(a)) <==> a == UpdateStatusAction
    ensures "reporter" !in WritableFields(SerializerFor(a))
  {
  }

  /** The query parameters `list` reads, with dates already read as day numbers
      (`ListView` takes them as sent); `None` stands for a missing or empty
      parameter. */
  datatype ListQuery = ListQuery(
    status: Option<string>,
    category: Option<string>,
    city: Option<string>,
    from: Option<Day>,
    to: Option<Day>,
    ordering: Option<string>)

  const NoQuery: ListQuery := ListQuery(None, None, None, None, None, None)

  predicate StatusClause(q: ListQuery, inc: Incident) {
    Present(q.status) ==> StatusName(inc.status) == q.status.value
  }

  predicate CategoryClause(q: ListQuery, inc: Incident) {
    Present(q.category) ==> CategoryName(inc.category) == q.category.value
  }

  predicate CityClause(q: ListQuery, inc: Incident) {
    Present(q.city) ==> EqualsIgnoringCase(inc.city, q.city.value)
  }

  predicate FromClause(q: ListQuery, inc: Incident) {
    q.from.Some? ==> q.from.value <= DateOf(inc.createdAt)
  }

  predicate ToClause(q: ListQuery, inc: Incident) {
    q.to.Some? ==> DateOf(inc.createdAt) <= q.to.value
  }

  /** The filters of `list`, chained one after the other. */
  predicate Matches(q: ListQuery, inc: Incident) {
    && StatusClause(q, inc)
    && CategoryClause(q, inc)
    && CityClause(q, inc)
    && FromClause(q, inc)
    && ToClause(q, inc)
  }

  /** Only `created_at` and `-created_at` are honoured; anything else keeps the
      default newest-first order. */
  function OrderingKey(q: ListQuery): Incident -> int {
    if q.ordering == Some("created_at") then OldestFirst
    else NewestFirst
  }

  /** `list`: all incidents in the requested order, filtered. The store is a value,
      so listing cannot change it. */
  function ListIncidents(st: Store, q: ListQuery): (r: seq<Incident>)
    ensures forall inc :: inc in r <==> inc in st.incidents && Matches(q, inc)
    ensures forall inc :: multiset(r)[inc] == if Matches(q, inc) then multiset(st.incidents)[inc] else 0
    ensures IsSubsequence(r, SortByKey(st.incidents, OrderingKey(q)))
    ensures SortedByKey(r, OrderingKey(q))
  {
    var ordered := SortByKey(st.incidents, OrderingKey(q));
    FilterKeepsSorted(ordered, (inc: Incident) => Matches(q, inc), OrderingKey(q));
    forall inc ensures multiset(Filter(ordered, (inc: Incident) => Matches(q, inc)))[inc] ==
                       if Matches(q, inc) then multiset(st.incidents)[inc] else 0 {
      FilterMultiplicity(ordered, (inc: Incident) => Matches(q, inc), inc);
    }
    Filter(ordered, (inc: Incident) => Matches(q, inc))
  }

  /** A `from` or `to` parameter as the request carries it: missing or empty, a
      string Django reads as a date (given here as its day number), or one it
      cannot read. */
  datatype DateParam = NoDate | OnDay(day: Day) | Unreadable

  function DateBound(d: DateParam): Option<Day> {
    if d.OnDay? then Some(d.day) else None
  }

  /** `list` on the raw date parameters. The dates come from `from` and `to`:
      `q.from` and `q.to` are not read. A date Django cannot read makes building
      the filter raise Django's own `ValidationError`, which the REST framework does
      not turn into a 400, so the request ends in a server error; any other query
      is answered with the listing. */
  function ListView(st: Store, q: ListQuery, from: DateParam, to: DateParam): (r: Result<seq<Incident>, Error>)
    ensures r.Failure? <==> from.Unreadable? || to.Unreadable?
    ensures r.Failure? ==> r.error == ServerError
    ensures r.Success? ==> forall inc :: inc in r.value <==>
      && inc in st.incidents
      && StatusClause(q, inc) && CategoryClause(q, inc) && CityClause(q, inc)
      && (from.OnDay? ==> from.day <= DateOf(inc.createdAt))
      && (to.OnDay? ==> DateOf(inc.createdAt) <= to.day)
    ensures r.Success? ==> SortedByKey(r.value, OrderingKey(q))
  {
    if from.Unreadable? || to.Unreadable? then Failure(ServerError)
    else Success(ListIncidents(st, q.(from := DateBound(from), to := DateBound(to))))
  }

  /** Every listed incident satisfies each filter that was given. */
  lemma ListedIncidentsSatisfyFilters(st: Store, q: ListQuery, inc: Incident)
    requires inc in ListIncidents(st, q)
    ensures inc in st.incidents
    ensures Present(q.status) ==> StatusName(inc.status) == q.status.value
    ensures Present(q.category) ==> CategoryName(inc.category) == q.category.value
    ensures Present(q.city) ==> FoldCase(inc.city) == FoldCase(q.city.value)
    ensures q.from.Some? ==> q.from.value <= DateOf(inc.createdAt)
    ensures q.to.Some? ==> DateOf(inc.createdAt) <= q.to.value
  {
  }

  /** The listing is oldest first for `ordering=created_at` and newest first
      otherwise, and holds no incident more often than the store does. */
  lemma ListOrder(st: Store, q: ListQuery)
    ensures var r := ListIncidents(st, q);
      && (q.ordering == Some("created_at") ==>
            forall i, j | 0 <= i < j < |r| :: r[i].createdAt <= r[j].createdAt)
      && (q.ordering != Some("created_at") ==>
            forall i, j | 0 <= i < j < |r| :: r[i].createdAt >= r[j].createdAt)
      && multiset(r) <= multiset(st.incidents)
  {
    var r := ListIncidents(st, q);
    forall inc ensures multiset(r)[inc] <= multiset(st.incidents)[inc] {
    }
    if q.ordering == Some("created_at") {
      SortedOldestFirst(r);
    } else {
      SortedNewestFirst(r);
    }
  }

  lemma SortedOldestFirst(r: seq<Incident>)
    requires SortedByKey(r, OldestFirst)
    ensures forall i, j | 0 <= i < j < |r| :: r[i].createdAt <= r[j].createdAt
  {
    assert forall i, j | 0 <= i < j < |r| :: OldestFirst(r[i]) <= OldestFirst(r[j]);
  }

  lemma SortedNewestFirst(r: seq<Incident>)
    requires SortedByKey(r, NewestFirst)
    ensures forall i, j | 0 <= i < j < |r| :: r[i].createdAt >= r[j].createdAt
  {
    assert forall i, j | 0 <= i < j < |r| :: NewestFirst(r[i]) <= NewestFirst(r[j]);
  }

  /** The query with only one filter kept and the default order. */
  function OnlyStatus(q: ListQuery): ListQuery { NoQuery.(status := q.status) }
  function OnlyCategory(q: ListQuery): ListQuery { NoQuery.(category := q.category) }
  function OnlyCity(q: ListQuery): ListQuery { NoQuery.(city := q.city) }
  function OnlyFrom(q: ListQuery): ListQuery { NoQuery.(from := q.from) }
  function OnlyTo(q: ListQuery): ListQuery { NoQuery.(to := q.to) }

  /** Membership in a listing, as the contract of `ListIncidents` states it. */
  lemma Listed(st: Store, q: ListQuery, inc: Incident)
    ensures inc in ListIncidents(st, q) <==> inc in st.incidents && Matches(q, inc)
  {
  }

  /** Matching a query is matching each of its single-filter queries. */
  lemma MatchesAsAnd(q: ListQuery, inc: Incident)
    ensures Matches(q, inc) <==>
      && Matches(OnlyStatus(q), inc)
      && Matches(OnlyCategory(q), inc)
      && Matches(OnlyCity(q), inc)
      && Matches(OnlyFrom(q), inc)
      && Matches(OnlyTo(q), inc)
    ensures Matches(NoQuery, inc)
  {
  }

  /** The filters combine as an AND: an incident is listed exactly when each
      single-filter listing would list it; without filters every incident is listed. */
  lemma FiltersCombineAsAnd(st: Store, q: ListQuery, inc: Incident)
    ensures inc in ListIncidents(st, q) <==>
      && inc in ListIncidents(st, OnlyStatus(q))
      && inc in ListIncidents(st, OnlyCategory(q))
      && inc in ListIncidents(st, OnlyCity(q))
      && inc in ListIncidents(st, OnlyFrom(q))
      && inc in ListIncidents(st, OnlyTo(q))
    ensures inc in ListIncidents(st, NoQuery) <==> inc in st.incidents
  {
    MatchesAsAnd(q, inc);
    Listed(st, q, inc);
    Listed(st, OnlyStatus(q), inc);
    Listed(st, OnlyCategory(q), inc);
    Listed(st, OnlyCity(q), inc);
    Listed(st, OnlyFrom(q), inc);
    Listed(st, OnlyTo(q), inc);
    Listed(st, NoQuery, inc);
  }

  /** Two listings whose queries select the same incidents and ask for the same
      order are equal. */
  lemma {:induction false} SameSelectionSameListing(st: Store, q1: ListQuery, q2: ListQuery)
    requires forall inc :: Matches(q1, inc) == Matches(q2, inc)
    requires (q1.ordering == Some("created_at")) == (q2.ordering == Some("created_at"))
    ensures ListIncidents(st, q1) == ListIncidents(st, q2)
  {
    var ordered := SortByKey(st.incidents, OrderingKey(q1));
    assert OrderingKey(q1) == OrderingKey(q2);
    FilterExtensional(ordered, (inc: Incident) => Matches(q1, inc), (inc: Incident) => Matches(q2, inc));
  }

  /** The city filter ignores case: "Lagos" and "LAGOS" list the same incidents in
      the same order. */
  lemma CityFilterIgnoresCase(st: Store, q: ListQuery, c1: string, c2: string)
    requires EqualsIgnoringCase(c1, c2)
    ensures ListIncidents(st, q.(city := Some(c1))) == ListIncidents(st, q.(city := Some(c2)))
  {
    assert |c1| == |FoldCase(c1)| == |FoldCase(c2)| == |c2|;
    SameSelectionSameListing(st, q.(city := Some(c1)), q.(city := Some(c2)));
  }

  /** With no parameters, `list` answers every incident in the default order of
      the model's `Meta.ordering`. */
  lemma DefaultListing(st: Store)
    ensures ListIncidents(st, NoQuery) == DefaultOrder(st.incidents)
  {
    FilterAll(SortByKey(st.incidents, NewestFirst), (inc: Incident) => Matches(NoQuery, inc));
  }

  /** An empty status, category or city parameter is the same as a missing one. */
  lemma EmptyParametersImposeNothing(st: Store, q: ListQuery)
    ensures ListIncidents(st, q.(status := Some(""))) == ListIncidents(st, q.(status := None))
    ensures ListIncidents(st, q.(category := Some(""))) == ListIncidents(st, q.(category := None))
    ensures ListIncidents(st, q.(city := Some(""))) == ListIncidents(st, q.(city := None))
  {
    var q1, q2, q3 := q.(status := Some("")), q.(category := Some("")), q.(city := Some(""));
    SameSelectionSameListing(st, q1, q1.(status := None));
    SameSelectionSameListing(st, q2, q2.(category := None));
    SameSelectionSameListing(st, q3, q3.(city := None));
  }

  /** Any ordering other than `created_at` gives the default newest-first listing. */
  lemma UnknownOrderingIsDefault(st: Store, q: ListQuery)
    requires q.ordering != Some("created_at")
    ensures ListIncidents(st, q) == ListIncidents(st, q.(ordering := None))
  {
    SameSelectionSameListing(st, q, q.(ordering := None));
  }

  /** `retrieve`. */
  function RetrieveIncident(st: Store, id: IncidentId): (r: Result<Incident, Error>)
    ensures r.Success? <==> exists i | 0 <= i < |st.incidents| :: st.incidents[i].id == id
    ensures r.Success? ==> r.value in st.incidents && r.value.id == id
    ensures r.Failure? ==> r.error == NotFound
  {
    match Find(st.incidents, id)
    case None => Failure(NotFound)
    case Some(i) => Success(st.incidents[i])
  }

  datatype Updated = Updated(store: Store, incident: Incident)

  /** `update_status`: permission check, then `get_object` (404), then validation
      (400), then `save`. */
  function UpdateStatusView(st: Store, id: IncidentId, p: Principal, data: StatusInput, now: Timestamp): (r: Result<Updated, Error>)
    ensures !IsAdminRole(p) ==> r == Failure(Deny(p))
    ensures r.Success? <==>
      && IsAdminRole(p)
      && Find(st.incidents, id).Some?
      && data.status.Some? && data.status.value in StatusChoices
    ensures IsAdminRole(p) && Find(st.incidents, id).None? ==> r == Failure(NotFound)
    ensures IsAdminRole(p) && Find(st.incidents, id).Some? && !(data.status.Some? && data.status.value in StatusChoices) ==>
      r.Failure? && r.error.ValidationError?
    ensures r.Success? ==>
      && StatusName(r.value.incident.status) == data.status.value
      && r.value.incident.id == id
      && r.value.incident == st.incidents[Find(st.incidents, id).value].(status := r.value.incident.status, updatedAt := now)
      && r.value.incident in r.value.store.incidents
      && r.value.store == SaveStatus(st, id, ValidateStatusUpdate(data).value, p, now)
  {
    if !Allows(GetPermissions(UpdateStatusAction), p, "PUT") then Failure(Deny(p))
    else match Find(st.incidents, id)
      case None => Failure(NotFound)
      case Some(i) =>
        match ValidateStatusUpdate(data)
        case Failure(e) => Failure(e)
        case Success(change) =>
          var st' := SaveStatus(st, id, change, p, now);
          Success(Updated(st', st'.incidents[i]))
  }

  /** An admin may move an existing incident from whatever status it has to any
      status: the model imposes no transition graph. */
  lemma AnyStatusToAnyStatus(st: Store, id: IncidentId, p: Principal, target: Status, comment: Option<string>, now: Timestamp)
    requires IsAdminRole(p)
    requires Find(st.incidents, id).Some?
    ensures var r := UpdateStatusView(st, id, p, StatusInput(Some(StatusName(target)), comment), now);
      r.Success? && r.value.incident.status == target
  {
  }

  /** `history`: the rows of one incident, newest first, for admins only. */
  function HistoryView(st: Store, id: IncidentId, p: Principal): (r: Result<seq<StatusHistory>, Error>)
    ensures r.Success? <==> IsAdminRole(p) && Find(st.incidents, id).Some?
    ensures !IsAdminRole(p) ==> r == Failure(Deny(p))
    ensures IsAdminRole(p) && Find(st.incidents, id).None? ==> r == Failure(NotFound)
    ensures r.Success? ==> forall h | h in r.value :: h.incident == id && h in st.history
    ensures r.Success? ==> multiset(r.value) == multiset(HistoryOf(st.history, id))
    ensures r.Success? ==> forall i, j | 0 <= i < j < |r.value| :: r.value[i].changedAt >= r.value[j].changedAt
  {
    if !Allows(GetPermissions(HistoryAction), p, "GET") then Failure(Deny(p))
    else if Find(st.incidents, id).None? then Failure(NotFound)
    else Success(HistoryDefaultOrder(HistoryOf(st.history, id)))
  }
}
