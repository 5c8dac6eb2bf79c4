/** The write paths of reports/serializers.py: creating an incident and saving a
    status change, plus the derived username fields. */
module Serializers {
  import opened Wrappers
  import opened Errors
  import opened Text
  import opened Users
  import opened Permissions
  import opened Incidents

  /** What the image host did with an uploaded file: answered with its URLs (either
      may be missing), or raised. */
  datatype UploadResult = Uploaded(secureUrl: Option<string>, url: Option<string>) | UploadRaised

  /** Python's `a or b` for an optional string and a fallback. */
  function OrElse(o: Option<string>, fallback: string): string {
    if Present(o) then o.value else fallback
  }

  /** Whether handling the upload raises: there is a file, an image host is
      configured, and the host's upload call raises. Nothing catches that. */
  predicate UploadRaises(hasFile: bool, uploadsEnabled: bool, uploaded: UploadResult) {
    hasFile && uploadsEnabled && uploaded.UploadRaised?
  }

  /** The stored `image_url`. Without a file, or with a file but no image host
      configured, the submitted URL (or "") is kept; with a file and a host, the
      host's `secure_url`, else its `url`, else the submitted URL; an upload that
      raises is a server error. */
  function ResolveImageUrl(given: Option<string>, hasFile: bool, uploadsEnabled: bool, uploaded: UploadResult): (r: Result<string, Error>)
    ensures r.Failure? <==> UploadRaises(hasFile, uploadsEnabled, uploaded)
    ensures r.Failure? ==> r.error == ServerError
    ensures !hasFile ==> r == Success(given.GetOr(""))
    ensures hasFile && !uploadsEnabled ==> r == Success(given.GetOr(""))
    ensures hasFile && uploadsEnabled && uploaded.Uploaded? ==>
      && (Present(uploaded.secureUrl) ==> r == Success(uploaded.secureUrl.value))
      && (!Present(uploaded.secureUrl) && Present(uploaded.url) ==> r == Success(uploaded.url.value))
      && (!Present(uploaded.secureUrl) && !Present(uploaded.url) ==> r == Success(given.GetOr("")))
  {
    var provided := given.GetOr("");
    if hasFile && uploadsEnabled then
      match uploaded
      case UploadRaised => Failure(ServerError)
      case Uploaded(secureUrl, url) => Success(OrElse(secureUrl, OrElse(url, provided)))
    else Success(provided)
  }

  /** The fields a client may send to create an incident. `requestedStatus` stands
      for a `status` the client sends anyway; the serializer does not read it. */
  datatype IncidentInput = IncidentInput(
    title: Option<string>,
    description: Option<string>,
    category: Option<string>,
    city: Option<string>,
    latitude: Option<int>,
    longitude: Option<int>,
    imageUrl: Option<string>,
    hasImage: bool,
    requestedStatus: Option<string>)

  /** The input the create serializer accepts: a non-blank title of at most 180
      characters, a non-blank description, a category among the choices when one is
      given, and a city of at most 120 characters. */
  predicate ValidInput(input: IncidentInput) {
    && input.title.Some? && ValidTitle(input.title.value)
    && input.description.Some? && input.description.value != ""
    && (input.category.Some? ==> input.category.value in CategoryChoices)
    && (input.city.Some? ==> |input.city.value| <= CityMaxLength)
  }

  datatype Created = Created(store: Store, incident: Incident)

  /** `IncidentCreateSerializer` validation followed by `create`, with the submitted
      `image_url` taken out of the validated data before the row is built, as the
      image file is; see `CreateIncidentAsWritten` for the code as it stands. */
  function CreateIncident(
    st: Store, input: IncidentInput, actor: Principal,
    uploadsEnabled: bool, uploaded: UploadResult, now: Timestamp): (r: Result<Created, Error>)
    ensures r.Success? <==> ValidInput(input) && !UploadRaises(input.hasImage, uploadsEnabled, uploaded)
    ensures r.Failure? && !ValidInput(input) ==> r.error.ValidationError?
    ensures r.Failure? && ValidInput(input) ==> r.error == ServerError
    ensures input.title.Some? && |input.title.value| > TitleMaxLength ==> r.Failure? && r.error.ValidationError?
    ensures r.Success? ==>
      var inc := r.value.incident;
      && inc.status == Pending
      && inc.reporter == ActorId(actor)
      && Success(inc.imageUrl) == ResolveImageUrl(input.imageUrl, input.hasImage, uploadsEnabled, uploaded)
      && inc.title == input.title.value && inc.description == input.description.value
      && CategoryName(inc.category) == input.category.GetOr("other")
      && inc.city == input.city.GetOr("")
      && inc.latitude == input.latitude && inc.longitude == input.longitude
      && inc.createdAt == now && inc.updatedAt == now
      && inc.id == st.nextIncidentId
      && r.value.store.incidents == st.incidents + [inc]
      && r.value.store.history == st.history
      && r.value.store.nextIncidentId == st.nextIncidentId + 1
      && r.value.store.nextHistoryId == st.nextHistoryId
  {
    if input.title.None? || input.title.value == "" then
      Failure(ValidationError("title: this field is required"))
    else if |input.title.value| > TitleMaxLength then
      Failure(ValidationError("title: ensure this field has no more than 180 characters"))
    else if input.description.None? || input.description.value == "" then
      Failure(ValidationError("description: this field is required"))
    else if input.category.Some? && ParseCategory(input.category.value).None? then
      Failure(ValidationError("category: not a valid choice"))
    else if input.city.Some? && |input.city.value| > CityMaxLength then
      Failure(ValidationError("city: ensure this field has no more than 120 characters"))
    else
      match ResolveImageUrl(input.imageUrl, input.hasImage, uploadsEnabled, uploaded)
      case Failure(e) => Failure(e)
      case Success(imageUrl) =>
        var category := if input.category.Some? then ParseCategory(input.category.value) else None;
        var inc := NewIncident(st.nextIncidentId, input.title.value, input.description.value, category,
                               input.city, input.latitude, input.longitude, Some(imageUrl),
                               ActorId(actor), now);
        Success(Created(st.(incidents := st.incidents + [inc], nextIncidentId := st.nextIncidentId + 1), inc))
  }

  /** `create` as written: `image_url` is read from the validated data but left in
      it, so a submitted `image_url` reaches the model constructor twice, once as
      the keyword and once through the unpacked data, and Python raises before any
      row is created. */
  function CreateIncidentAsWritten(
    st: Store, input: IncidentInput, actor: Principal,
    uploadsEnabled: bool, uploaded: UploadResult, now: Timestamp): (r: Result<Created, Error>)
    ensures r.Success? <==>
      ValidInput(input) && !UploadRaises(input.hasImage, uploadsEnabled, uploaded) && input.imageUrl.None?
    ensures r.Failure? && !ValidInput(input) ==> r.error.ValidationError?
    ensures ValidInput(input) && input.imageUrl.Some? ==> r == Failure(ServerError)
    ensures input.imageUrl.None? ==> r == CreateIncident(st, input, actor, uploadsEnabled, uploaded, now)
  {
    match CreateIncident(st, input, actor, uploadsEnabled, uploaded, now)
    case Failure(e) => Failure(e)
    case Success(c) => if input.imageUrl.Some? then Failure(ServerError) else Success(c)
  }

  /** As written, a submitted URL is never stored: a created incident's image URL is
      the host's answer or "". The corrected create stores the submitted URL. */
  lemma SubmittedImageUrlAsWritten(st: Store, actor: Principal, now: Timestamp)
    ensures var input := IncidentInput(Some("Pothole"), Some("Deep"), None, None, None, None,
                                       Some("https://x/y.png"), false, None);
      && CreateIncidentAsWritten(st, input, actor, false, Uploaded(None, None), now) == Failure(ServerError)
      && var c := CreateIncident(st, input, actor, false, Uploaded(None, None), now);
      && c.Success? && c.value.incident.imageUrl == "https://x/y.png"
  {
  }

  /** Every incident the code as written creates has an image URL that came from the
      image host, or none at all. */
  lemma AsWrittenImageUrlNeverSubmitted(
    st: Store, input: IncidentInput, actor: Principal,
    uploadsEnabled: bool, uploaded: UploadResult, now: Timestamp)
    requires CreateIncidentAsWritten(st, input, actor, uploadsEnabled, uploaded, now).Success?
    ensures var inc := CreateIncidentAsWritten(st, input, actor, uploadsEnabled, uploaded, now).value.incident;
      || inc.imageUrl == ""
      || (uploaded.Uploaded? && (Some(inc.imageUrl) == uploaded.secureUrl || Some(inc.imageUrl) == uploaded.url))
  {
  }

  /** Whatever status a client sends with a new incident, the result is the same. */
  lemma CreateIgnoresRequestedStatus(
    st: Store, input: IncidentInput, requested: Option<string>, actor: Principal,
    uploadsEnabled: bool, uploaded: UploadResult, now: Timestamp)
    ensures CreateIncident(st, input.(requestedStatus := requested), actor, uploadsEnabled, uploaded, now)
         == CreateIncident(st, input.(requestedStatus := None), actor, uploadsEnabled, uploaded, now)
  {
  }

  /** An incident created from a title and a description only gets the model's
      defaults: pending, category "other", empty city and image URL. */
  lemma CreateDefaults(st: Store, title: string, description: string, actor: Principal, now: Timestamp)
    requires ValidTitle(title) && description != ""
    ensures var input := IncidentInput(Some(title), Some(description), None, None, None, None, None, false, None);
      var r := CreateIncident(st, input, actor, true, Uploaded(None, None), now);
      && r.Success?
      && r.value.incident.status == Pending
      && r.value.incident.category == Other
      && r.value.incident.city == ""
      && r.value.incident.imageUrl == ""
      && r.value.incident.reporter.None? == actor.Anonymous?
  {
  }

  /** The body of a status update. */
  datatype StatusInput = StatusInput(status: Option<string>, comment: Option<string>)

  datatype StatusChange = StatusChange(status: Status, comment: string)

  /** `IncidentStatusUpdateSerializer` validation: the status must be one of the
      choices; `validate_status` adds no rule; the comment defaults to "". */
  function ValidateStatusUpdate(data: StatusInput): (r: Result<StatusChange, Error>)
    ensures r.Success? <==> data.status.Some? && data.status.value in StatusChoices
    ensures r.Failure? ==> r.error.ValidationError?
    ensures r.Success? ==> StatusName(r.value.status) == data.status.value
    ensures r.Success? ==> r.value.comment == data.comment.GetOr("")
  {
    if data.status.None? then Failure(ValidationError("status: this field is required"))
    else match ParseStatus(data.status.value)
      case None => Failure(ValidationError("status: not a valid choice"))
      case Some(s) => Success(StatusChange(s, data.comment.GetOr("")))
  }

  /** Every status is accepted as a target; the current status plays no part. */
  lemma EveryStatusIsAccepted(target: Status, comment: Option<string>)
    ensures ValidateStatusUpdate(StatusInput(Some(StatusName(target)), comment))
         == Success(StatusChange(target, comment.GetOr("")))
  {
  }

  /** `IncidentStatusUpdateSerializer.save`: the incident takes the new status (and
      a fresh `updated_at`), and one history row recording the old status, the new
      status, the comment and the acting user is appended. Nothing else changes. */
  function SaveStatus(st: Store, id: IncidentId, change: StatusChange, actor: Principal, now: Timestamp): (r: Store)
    requires Find(st.incidents, id).Some?
    ensures var i := Find(st.incidents, id).value;
      && |r.incidents| == |st.incidents|
      && r.incidents[i].status == change.status
      && r.incidents[i] == st.incidents[i].(status := change.status, updatedAt := now)
      && (forall j | 0 <= j < |st.incidents| && j != i :: r.incidents[j] == st.incidents[j])
      && |r.history| == |st.history| + 1
      && r.history[..|st.history|] == st.history
      && var e := r.history[|st.history|];
      && e.id == st.nextHistoryId
      && e.incident == id
      && e.oldStatus == st.incidents[i].status
      && e.newStatus == change.status
      && e.comment == change.comment
      && e.changedBy == ActorId(actor)
      && e.changedAt == now
    ensures r.nextIncidentId == st.nextIncidentId && r.nextHistoryId == st.nextHistoryId + 1
  {
    var i := Find(st.incidents, id).value;
    var inc := st.incidents[i];
    var entry := StatusHistory(st.nextHistoryId, id, inc.status, change.status, change.comment, ActorId(actor), now);
    var history' := st.history + [entry];
    assert history'[..|st.history|] == st.history;
    st.(incidents := st.incidents[i := inc.(status := change.status, updatedAt := now)],
        history := history',
        nextHistoryId := st.nextHistoryId + 1)
  }

  /** The username behind a user reference, as `getattr(ref, "username", None)`:
      absent exactly when the reference is absent (or names no existing user). */
  function UsernameOf(ref: Option<UserId>, users: seq<User>): (r: Option<string>)
    ensures ref.None? ==> r.None?
    ensures ref.Some? && (exists u | u in users :: u.id == ref.value) ==> r.Some?
    ensures r.Some? ==> exists u | u in users :: u.id == ref.value && u.username == r.value
  {
    if ref.None? then None
    else match FindUser(users, ref.value)
      case None => None
      case Some(u) => Some(u.username)
  }

  /** `reporter_username` of the read serializer. */
  function ReporterUsername(inc: Incident, users: seq<User>): (r: Option<string>)
    ensures inc.reporter.None? ==> r.None?
    ensures inc.reporter.Some? && (exists u | u in users :: u.id == inc.reporter.value) ==> r.Some?
  {
    UsernameOf(inc.reporter, users)
  }

  /** `changed_by_username` of the history serializer. */
  function ChangedByUsername(h: StatusHistory, users: seq<User>): (r: Option<string>)
    ensures h.changedBy.None? ==> r.None?
    ensures h.changedBy.Some? && (exists u | u in users :: u.id == h.changedBy.value) ==> r.Some?
  {
    UsernameOf(h.changedBy, users)
  }
}
