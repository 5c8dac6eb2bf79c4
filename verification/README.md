# CivicWatch incident lifecycle, in Dafny

CivicWatch is a Django REST service. Citizens report civic problems there: potholes, outages, drainage, waste, public safety. Administrators then move each report through a review workflow. This project models the core of that service as pure functions over immutable values. The core is:

- the incident and status-history data model;
- incident creation and the status transition with its audit row;
- the access policy;
- the filtered incident listing;
- the administrator dashboard;
- the two account endpoints `register` and `me`.

The database is a `Store`. It holds two sequences:

- the incidents, in insertion order;
- the status-history rows, in append order, which is also chronological.

It also holds the next primary key of each table. Every request handler is a function from a store, a principal and the request data to a `Result`. On success the result carries the new store. On failure it carries an `Error`: `ValidationError` (400), `NotFound` (404), `Forbidden` (403), `Unauthenticated` (401) or `ServerError` (500, an exception nothing handles). A refused anonymous caller gets 401 on the assumption that the first configured authentication class is the JWT one (the token views of users/urls.py are simplejwt's), which sends a `WWW-Authenticate` header. With session authentication first, the REST framework would answer 403 instead. The settings are not part of this model.

The central property is the replay invariant `Incidents.Valid`. For every incident, replaying its history rows oldest first from `pending` must chain: each row leaves from the status the previous row reached. The replay must end at the incident's current status. `Lifecycle` proves that creation, status updates, deleting an incident and deleting a user all keep this invariant. The `Lifecycle.Walkthrough…` lemmas follow one report through the whole workflow: created, reviewed, resolved, history read back.

Modules follow the source files:

- `Users`: users/models.py
- `Permissions`: users/permissions.py
- `Accounts`: users/urls.py
- `Incidents`: reports/models.py
- `Serializers`: reports/serializers.py
- `IncidentViews`: reports/views.py
- `Analytics`: analytics/views.py
- `Lifecycle`: the invariant lemmas

The helper modules are `Wrappers`, `Errors`, `Seqs`, `Sorting`, `Grouping` and `Text`. They provide Option/Result, filtering, a stable insertion sort standing in for `order_by`, group-by counting and ASCII case folding.

Modelling conventions:

- Timestamps are natural numbers of seconds in UTC. The date of a timestamp is `t / 86400`.
- `IncidentViews.ListIncidents` takes the `from` and `to` query parameters as day numbers. `IncidentViews.ListView` takes them as sent: absent, a readable date, or a string Django cannot read as a date.
- Latitude and longitude are opaque optional integers.
- Users are referred to by id.
- The Cloudinary upload is a parameter. The caller supplies whether an image host is configured, and what the host did with the file (`UploadResult`): either it answered with its URLs or it raised.
- Where the code and the documented intent of the system differ, the model follows the code, except in the two places listed under "## Findings". There both the code as written and the corrected behaviour are modelled, and the corrected member is the one used elsewhere. The differences are:
  - When no image host is configured, or the host's answer has neither `secure_url` nor `url`, the submitted URL is kept. The source treats a host that cannot be imported (reports/serializers.py:8-11) as not configured. An exception raised by the upload itself is not caught and ends the request with a 500.
  - As written, `create` crashes with a 500 whenever the client sends `image_url` (see Findings). The corrected create, `Serializers.CreateIncident`, is the one the rest of the model uses.
  - A `from` or `to` that Django cannot read as a date is a 500, not a 400.
  - Saving a status and appending its history row is one sequential step. The source has no transaction around it, and the model claims no atomicity beyond that.
  - The history endpoint was meant to be admin-only, but as written it is not (see Findings). The corrected policy is the one the rest of the model uses.

## Model

| member | source | states |
|---|---|---|
| Incidents.ParseStatus | reports/models.py:6-10 | A status value is accepted exactly when it is one of "pending", "in_review", "resolved", "rejected"; parsing is the inverse of the stored name. |
| Incidents.ParseCategory | reports/models.py:12-18 | A category value is accepted exactly when it is one of the six choices; parsing is the inverse of the stored name. |
| Incidents.EnumerationsAreComplete | reports/models.py:6-18 | Every status is one of the four listed values and every category one of the six, with no value listed twice. |
| Incidents.DefaultOrder | reports/models.py:39-40 | The default incident ordering is a permutation of the incidents with `created_at` non-increasing (newest first). |
| Incidents.HistoryDefaultOrder | reports/models.py:54-55 | The default history ordering is a permutation of the rows with `changed_at` non-increasing (newest first). |
| Incidents.DeleteIncident | reports/models.py:47 | Deleting an incident cascades: the remaining incidents are exactly those with another id, the remaining history rows are exactly those of other incidents, each kept row keeps its number of occurrences, and both tables keep their original order. |
| Incidents.DeleteUser | reports/models.py:30-32 | Deleting a user sets every `reporter`, and every `changed_by` (line 51), that named the user to null (not to some other user); every other field and every other row is unchanged. |
| Incidents.ReplayAfterAppend | reports/serializers.py:106-112 | Appending a history row leaves the replay of every other incident unchanged and moves the replay of its own incident to the row's new status when the row leaves from the replayed status. |
| Users.NewUser | users/models.py:9 | A user created without an explicit role is a citizen, without staff or superuser flags. |
| Users.IsAdminCases | users/models.py:11-12 | `is_admin` holds for the admin role and for staff, is false exactly for a non-staff citizen, and ignores the superuser flag. |
| Permissions.IsAdminRoleCharacterization | users/permissions.py:7-11 | `IsAdminRole` is false for an anonymous principal and true exactly for an authenticated one with role admin, the staff flag or the superuser flag. |
| Permissions.MissingRoleActsAsCitizen | users/permissions.py:11-22 | A principal without a role attribute is judged by both permission classes exactly as a citizen. |
| Permissions.ReadOnlyOrAdminSplit | users/permissions.py:17-23 | `ReadOnlyOrAdmin` admits every principal, anonymous included, for GET, HEAD and OPTIONS, and for any other verb it agrees with `IsAdminRole`. |
| Permissions.IsAdminVersusIsAdminRole | users/models.py:11-12 | `IsAdminRole` of a user's principal holds exactly when `is_admin` holds or the user is a superuser, so every `is_admin` user passes it. |
| Permissions.SuperuserCitizenDisagreement | users/permissions.py:11 | A non-staff citizen superuser passes `IsAdminRole` but is not `is_admin`. |
| Permissions.ActorId | reports/serializers.py:49 | The user recorded as actor is absent exactly for an anonymous caller and is the caller's id otherwise. |
| Accounts.Register | users/urls.py:17-31 | Registration succeeds exactly when username and password are both non-empty and the username is free; a failure is a 400 that leaves the user table unchanged; a success appends exactly one citizen user, with its email normalised as `create_user` does (defaulting to ""), gets the next user id, which advances by one, and answers its id, username and role "citizen"; unique usernames stay unique. |
| Accounts.NormalizeEmail | users/urls.py:23-30 | The e-mail `create_user` stores: with no `@` in the stripped address it is kept as given; otherwise it is the stripped address with the part after its last `@` case-folded (equal to it ignoring case) and everything before it unchanged. |
| Accounts.NormalizeEmailIdempotent | users/urls.py:30 | Normalising an already normalised e-mail changes nothing. |
| Accounts.NormalizeSplit | users/urls.py:30 | For an address `local@domain` without surrounding spaces and with no `@` in the domain, normalisation gives `local@` followed by the lower-cased domain. |
| Accounts.RegisterIgnoresRequestedRole | users/urls.py:19 | The role a client requests has no effect on registration. |
| Accounts.RegistrationsKeepUsernamesUnique | users/urls.py:27-28 | Any run of registrations keeps usernames unique. |
| Accounts.Me | users/urls.py:33-44 | `me` refuses an anonymous caller with 401; otherwise it reports the caller's fields, with role "admin" exactly for the admin role and "citizen" when the role attribute is missing. |
| Serializers.ResolveImageUrl | reports/serializers.py:52-60 | Resolution fails with a server error exactly when there is a file, a host is configured and the upload raises. Otherwise: without a file, or with no host configured (lines 5-11), the submitted URL (or "") is kept; with a file and a host, the host's `secure_url`, else its `url`, else the submitted URL. |
| Serializers.CreateIncident | reports/serializers.py:44-67 | The corrected create. It succeeds exactly for valid input (non-blank title of at most 180 characters, description, a valid category if given, a city of at most 120 characters) whose upload does not raise. Invalid input is a 400 and a raising upload a 500. The new incident is pending, its reporter is the caller when authenticated and null otherwise, its image URL is resolved as above, category defaults to "other" and city to ""; it is appended to the store with a fresh id and nothing else changes. |
| Serializers.CreateIncidentAsWritten | reports/serializers.py:52-66 | `create` as written: it succeeds exactly when the corrected create does and no `image_url` was sent. Valid input carrying an `image_url` is a 500; without one, the result is the corrected create's. |
| Serializers.SubmittedImageUrlAsWritten | reports/serializers.py:52-66 | A report with a title, a description and `image_url` "https://x/y.png" is a 500 as written, while the corrected create stores that URL. |
| Serializers.AsWrittenImageUrlNeverSubmitted | reports/serializers.py:52-66 | As written, a created incident's image URL is "" or one of the URLs the image host answered, never a submitted one. |
| Serializers.CreateIgnoresRequestedStatus | reports/serializers.py:36-42 | A `status` sent with a new incident has no effect: the create serializer does not read it. |
| Serializers.CreateDefaults | reports/models.py:20-34 | An incident created from a title and description only is pending, in category "other", with empty city and image URL, and has a reporter exactly when the caller is authenticated. |
| Serializers.ValidateStatusUpdate | reports/serializers.py:88-94 | A status update is accepted exactly when its status is one of the four choices, with no further rule; the comment defaults to "". |
| Serializers.EveryStatusIsAccepted | reports/serializers.py:92-94 | Every status is accepted as a target, whatever the incident's current status. |
| Serializers.SaveStatus | reports/serializers.py:96-113 | After `save` the incident has the requested status; exactly one history row is appended, recording the incident, the status before the call, the requested status, the comment and the acting user (null when anonymous), with the next history id, which advances by one; all other incidents are unchanged. |
| Serializers.UsernameOf | reports/serializers.py:27-28 | A derived username is null when the reference is null, present when it names an existing user, and then that user's username. |
| Serializers.ReporterUsername | reports/serializers.py:27-28 | `reporter_username` is null exactly when the incident has no (existing) reporter. |
| Serializers.ChangedByUsername | reports/serializers.py:84-85 | `changed_by_username` is null exactly when the row has no (existing) acting user. |
| IncidentViews.ActionPolicy | reports/views.py:23-28 | Using the corrected policy: create, list and retrieve admit every principal; update_status and history admit exactly the principals passing `IsAdminRole`, whatever the verb. |
| IncidentViews.HistoryIsPublicAsWritten | reports/views.py:78 | As written, `get_permissions` gives `history` the fallback class, so an anonymous GET of an incident's history is admitted. |
| IncidentViews.StatusWritableOnlyByStatusUpdate | reports/views.py:30-37 | Of the serializers `get_serializer_class` hands out, only the status-update one reads a `status` from the client, and none reads `reporter`. |
| IncidentViews.ListView | reports/views.py:39-57 | With the date parameters as sent: the request fails with a 500 exactly when `from` or `to` cannot be read as a date. Otherwise an incident is listed exactly when it is in the store, passes the status, category and city filters, and its creation day is within the readable bounds; the listing is sorted in the requested order. |
| IncidentViews.DefaultListing | reports/models.py:39-40 | With no query parameters the listing is every incident in the model's default newest-first order. |
| IncidentViews.ListIncidents | reports/views.py:39-59 | An incident is listed exactly when it is in the store and satisfies every given filter, as many times as it is stored; the listing is a subsequence of the store in the requested order and is sorted by it. |
| IncidentViews.ListedIncidentsSatisfyFilters | reports/views.py:48-57 | Every listed incident has the requested status and category, the requested city up to case, and a creation date within `from` and `to` inclusive. |
| IncidentViews.FiltersCombineAsAnd | reports/views.py:48-57 | An incident is listed exactly when each single-filter listing would list it; with no filter every incident is listed. |
| IncidentViews.CityFilterIgnoresCase | reports/views.py:52-53 | Two spellings of a city that differ only in case, such as "Lagos" and "LAGOS", give identical listings. |
| IncidentViews.EmptyParametersImposeNothing | reports/views.py:48-53 | An empty status, category or city parameter gives the same listing as a missing one. |
| IncidentViews.ListOrder | reports/views.py:58-59 | `ordering=created_at` lists oldest first and any other value newest first; the listing holds no incident more often than the store does. |
| IncidentViews.UnknownOrderingIsDefault | reports/views.py:58-59 | An ordering other than `created_at` gives exactly the default listing. |
| IncidentViews.RetrieveIncident | reports/views.py:16-18 | Retrieval succeeds exactly when some incident has the id, returns that incident, and otherwise answers 404. |
| IncidentViews.UpdateStatusView | reports/views.py:69-76 | A non-admin is refused (401 anonymous, 403 otherwise); the update succeeds exactly for an admin, an existing incident and a valid status. For an admin, an unknown id is a 404 whatever the body, and an invalid or missing status on an existing incident is a 400. A success returns the stored incident with the requested status and a new `updated_at`, and the store `save` produces. |
| IncidentViews.AnyStatusToAnyStatus | reports/views.py:69-76 | An admin can move an existing incident from whatever status it has to any status. |
| IncidentViews.HistoryView | reports/views.py:78-84 | Under the corrected policy, history succeeds exactly for an admin and an existing incident, is a 404 for an admin and an unknown id, and returns exactly the rows of that incident, as a permutation, newest first. |
| Analytics.StatusCounts | analytics/views.py:18-19 | One row per status that occurs, with its exact count (at least 1, no zero rows); the counts add up to the number of incidents. |
| Analytics.CategoryCounts | analytics/views.py:22-23 | One row per category that occurs, with its exact count (at least 1); the counts add up to the number of incidents. |
| Analytics.CityCounts | analytics/views.py:26-32 | No row for the empty city; one row per non-empty city with its exact count, no city twice; counts non-increasing; they add up to the number of incidents minus those with an empty city. |
| Analytics.ComputeDashboard | analytics/views.py:15-41 | The total is the number of incidents, and the three group-bys have the sums and bounds above. |
| Analytics.DashboardStats | analytics/views.py:8-41 | The dashboard is served exactly to principals passing `IsAdminRole` (401 anonymous, 403 otherwise), and what is served is the store's statistics as `ComputeDashboard` gives them, with the total equal to the number of incidents. |
| Lifecycle.CreatePreservesValid | reports/serializers.py:62-66 | Creating an incident keeps the store invariant, and the new incident starts with no history. |
| Lifecycle.SaveStatusPreservesValid | reports/serializers.py:99-112 | A status change keeps the store invariant: replaying each incident's history from pending still ends at its current status. |
| Lifecycle.UpdateStatusPreservesValid | reports/views.py:69-76 | The status-update endpoint keeps the store invariant. |
| Lifecycle.DeleteIncidentPreservesValid | reports/models.py:47 | Deleting an incident keeps the store invariant: the remaining incidents keep exactly their history. |
| Lifecycle.DeleteUserPreservesValid | reports/models.py:51 | Deleting a user keeps the store invariant: clearing actors does not change any replay. |
| Lifecycle.CurrentStatusFromHistory | reports/serializers.py:99-112 | In a valid store an incident with no history is pending, and otherwise its latest history row arrived at its current status. |
| Lifecycle.WalkthroughReport | reports/serializers.py:44-67 | An anonymous report of a road pothole is created pending, with id 1 and no reporter. |
| Lifecycle.WalkthroughReview | reports/serializers.py:96-113 | An admin moving it to in_review with comment "checking" logs one pending to in_review row. |
| Lifecycle.WalkthroughResolve | reports/serializers.py:96-113 | Moving it on to resolved without a comment logs an in_review to resolved row with comment "". |
| Lifecycle.WalkthroughHistory | reports/views.py:78-84 | Its history read by the admin is the resolved row, then the in_review row; under the corrected policy an anonymous reader is refused with 401. |
| Lifecycle.WalkthroughEndsValid | reports/models.py:46-52 | The store at the end of the walkthrough satisfies the replay invariant, with the incident resolved. |

## Left out

- The Cloudinary upload call and its configuration are left out because they are a foreign service. The caller supplies them as the `uploadsEnabled` flag and the `UploadResult` value. The kind of exception an upload raises is not modelled; every one is a 500.
- JWT token views, URL routing, the analytics ping endpoint and pagination are left out because they are framework plumbing.
- The 405 answer to a non-GET request on the dashboard is left out for the same reason.
- Password hashing in `create_user` and Django's username normalisation are left out; the password is only checked for presence.
- Whitespace trimming by DRF's `CharField` is left out. URL and image format validation and the decimal precision of latitude and longitude are left out because they are library validators.
- The `max_length` of `category`, `status` and `role` is left out: it is implied by the choices.
- `auto_now` and `auto_now_add` are left out: the clock is the `now` parameter.
- Time zones are left out: the date of a timestamp is its UTC day.
- Case folding in the city filter covers ASCII letters only. Unicode case folding is left out.
- Accounts.NormalizeEmail: lower-cases only the ASCII letters of the domain, where Python's `str.lower` lower-cases every letter. Its whitespace is Python's `str.isspace` over the code points a `char` can hold.
- IncidentViews.ListView: which strings Django reads as dates is not modelled. The caller says whether each parameter was readable and, if so, which day it names.
- Concurrency and transactions are left out. Each request is one sequential step on the store, so the race between two concurrent status changes is not modelled.
- Serializers.CreateIncident: an explicit JSON `null` for `category`, `city` or `image_url` is treated as an absent field, where the REST framework answers 400 because none of these fields allows null. Request bodies are `Option` values, which cannot tell the two apart.
- Serializers.ValidateStatusUpdate: an explicit JSON `null` for `comment` is treated as an absent comment, where the REST framework answers 400, for the same reason.
- Serializers.CreateIncident: reports one validation error at a time, in field order, where DRF collects the errors of all fields. Only the kind of error is stated.

## Findings

| source | as written | input that shows it | evidently intended | confidence | as-written member | corrected member |
|---|---|---|---|---|---|---|
| reports/views.py:23-28 | `get_permissions` overrides the `permission_classes=[IsAdminRole]` given to the `history` action at line 78, so `history` falls through to `IsAuthenticatedOrReadOnly` | an anonymous `GET /incidents/{id}/history/` is admitted | history is admin-only, as its decorator and docstring say | high, not executed | IncidentViews.GetPermissionsAsWritten | IncidentViews.GetPermissions |
| reports/serializers.py:52-66 | `image_url` is read with `validated_data.get` rather than popped, then passed both as the keyword `image_url=img_url` and inside `**validated_data` | `POST /incidents/` with a title, a description and `image_url` "https://x/y.png": Python raises `TypeError` (keyword given twice) and the answer is a 500 | the submitted URL is stored, or replaced by the uploaded file's URL | high, not executed | Serializers.CreateIncidentAsWritten | Serializers.CreateIncident |
