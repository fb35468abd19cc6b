# Feature-request voting: a Dafny model of its rules

The application lets signed-in users submit feature requests and vote on
them, and lets administrators (users whose e-mail ends in
`@yourcompany.com`) list and bulk-delete users and requests. Almost all of
its code is markup and request plumbing. This project models the rules
underneath it:

- the list views. The client-side filter and sort of the features page
  (`FeaturesPage`) and the server-side query built by `getFeatureRequests`
  (`FeatureList`). Both rest on a stable sort by an integer key (`Sorting`).
- the store (Prisma in the app). `Persistence` holds three in-memory tables
  in the class `Store`, evaluates feature queries on those tables, and has
  one method per bulk mutation the handlers make.
- the admin authorization ladder `checkAdmin` and the mapping from a thrown
  message to an HTTP status (`AdminAuth`), plus the stand-alone
  `GET /api/admin/check` (`AdminCheckRoute`).
- the route handlers `POST`/`GET /api/features` (`FeaturesRoute`),
  `GET`/`DELETE /api/admin/users` (`AdminUsersRoute`) and
  `GET`/`DELETE /api/admin/features` (`AdminFeaturesRoute`).
- the client's user slice (`UserSlice`). It has a pure reducer `Reduce`
  and a class `Slice` whose methods update the five fields in place.

Modelling decisions:

- A session is an `Option<SessionUser>` whose `id` and `email` may each be
  missing. `!user?.id` is JavaScript truthiness, so an empty id counts as
  no id (`Domain.HasId`). In the same way, an empty `title` or
  `description` counts as a missing one.
- A store failure is the input `Fault`. Either no store call throws, or
  the handler's call number `call` throws with `message`. A handler with
  two calls can therefore fail between them: in
  `DELETE /api/admin/features` the votes are then gone and the requests
  remain.
- The store assigns a new row's `id` and `createdAt`. Both are parameters
  of `FeaturesRoute.Post`. Timestamps are integers.
- A database does not fix the order of rows that tie on every ordering
  key. The model keeps such rows in table order.
- Ordering by vote count uses the size of the whole votes relation. In
  `getFeatureRequests` with a viewer, the embedded `votes` list holds only
  that viewer's votes. The sort key is still the total count.
- A `deleteMany` whose where clause is `NOT { email: { endsWith } }` keeps
  rows whose e-mail is null. SQL's three-valued logic makes the negated
  condition unknown for those rows. The admin user listing flags the same
  rows `isAdmin: false`.
- Vote-count ties get no secondary key, not even `createdAt`: features
  that tie keep their filtered order (`FeaturesPage.TiesKeepFilteredOrder`).

## Model

| member | source | states |
|---|---|---|
| Sorting.Sort | src/app/features/page.tsx:148-159 | the result is sorted by the key, is a permutation of the input, and keeps the input order among elements whose keys tie (the stable `Array.prototype.sort` with a comparator `key(a) - key(b)`) |
| Sorting.SortOfTiesIsIdentity | src/app/features/page.tsx:156-157 | when every key is equal, sorting returns the input unchanged |
| FeaturesPage.FilterByStatus | src/app/features/page.tsx:147 | each feature occurs in the result exactly as often as in the input if it passes the status filter, and not at all otherwise; every result element passes |
| FeaturesPage.AllKeepsEveryFeature | src/app/features/page.tsx:147 | with status `ALL` the filter returns the whole list, in order |
| FeaturesPage.Compare | src/app/features/page.tsx:148-158 | every branch of the comparator is the difference of one per-feature key (negated `createdAt`, `createdAt`, negated vote count, or the constant 0), so sorting by it is a sort by that key |
| FeaturesPage.FilteredAndSorted | src/app/features/page.tsx:146-159 | the result is exactly the features that pass the filter, none added, dropped or altered; the comparator never ranks a later element before an earlier one; `newest` gives non-increasing `createdAt`, `oldest` non-decreasing `createdAt`, `votes` non-increasing `votes.length` |
| FeaturesPage.TiesKeepFilteredOrder | src/app/features/page.tsx:154-155 | features the comparator ranks level (for `votes`, the same vote count) appear in the filtered order: no secondary key is applied |
| FeaturesPage.UnrecognisedSortKeepsOrder | src/app/features/page.tsx:156-157 | for a `sortBy` other than `newest`, `oldest` or `votes`, the result equals the filtered list |
| FeatureList.BuildQuery | src/app/features/feature-list.tsx:31-39 | no where clause when status is absent or `ALL`, otherwise exactly `{status}`; exactly one ordering key; `newest` gives `createdAt desc`, `oldest` gives `createdAt asc`, anything else (absent and `votes` included) gives vote count descending; the embedded votes are restricted to a non-empty user id when one is given |
| FeatureList.QueryDescribesProps | src/app/features/feature-list.tsx:31-32 | the query's where clause selects exactly the features the props ask for, and its vote restriction is the viewer |
| FeatureList.GetFeatureRequests | src/app/features/feature-list.tsx:29-61 | a store failure gives `FeatureListError('Failed to load feature requests')` and nothing else does; on success the result is a permutation of the wanted rows, each carrying only the viewer's votes when there is a viewer and all votes otherwise, ordered as `sortBy` asks |
| Domain.VotesFor | src/app/features/feature-list.tsx:49-51 | a vote is embedded exactly when it references the feature and, when a user is given, was cast by that user; each such row appears exactly as often as in the table, so the vote count is the number of matching rows |
| Domain.Embed | src/app/api/features/route.ts:68-76 | each feature row is paired, in order, with its embedded votes |
| Persistence.Select | src/app/features/feature-list.tsx:41-42 | a row is selected, as often as it occurs, exactly when it satisfies the where clause |
| Persistence.SelectWithoutWhere | src/app/api/features/route.ts:68-76 | a query without a where clause returns the whole table |
| Persistence.Evaluate | src/app/features/feature-list.tsx:41-54 | the answer to a query is a permutation of the selected rows with their embedded votes; every selected row is listed; rows are ordered by the first ordering key |
| Persistence.UsersNewestFirst | src/app/api/admin/users/route.ts:29-38 | the user rows, permuted so that `createdAt` is non-increasing |
| Persistence.SurvivorsOfSuffixDelete | src/app/api/admin/users/route.ts:64-72 | a user row survives, as often as it occurs, exactly when its e-mail ends in the suffix or is null |
| Persistence.Store.CreateFeature | src/app/api/features/route.ts:33-39 | `create` appends exactly one row |
| Persistence.Store.DeleteAllVotes | src/app/api/admin/features/route.ts:62 | `vote.deleteMany()` empties the vote table |
| Persistence.Store.DeleteAllFeatures | src/app/api/admin/features/route.ts:65 | `featureRequest.deleteMany()` empties the feature table |
| Persistence.Store.DeleteUsersWithoutSuffix | src/app/api/admin/users/route.ts:64-72 | the user table becomes the survivors of the suffix delete |
| AdminAuth.CheckAdmin | src/app/api/admin/users/route.ts:13-22 | throws `Unauthorized` exactly when there is no id, `Not an admin` exactly when there is an id but no admin e-mail, and passes exactly otherwise (the copy in src/app/api/admin/features/route.ts:13-22 is identical) |
| AdminAuth.StatusOf | src/app/api/admin/users/route.ts:49-50 | 401 exactly for `Unauthorized`, 403 exactly for `Not an admin`, 500 for every other message |
| AdminAuth.CaughtResponse | src/app/api/admin/users/route.ts:49-53 | the status follows the message; the body is the message, or the fallback text with status 500 when the message is empty |
| AdminAuth.RejectionStatus | src/app/api/admin/features/route.ts:47-48 | a rejected admin check answers 401 exactly when there is no identity and 403 exactly when there is one |
| AdminCheckRoute.Get | src/app/api/admin/check/route.ts:17-27 | 401 `Unauthorized` exactly without an id, 403 `Not an admin` exactly with an id and no admin e-mail, 200 `{isAdmin: true}` exactly otherwise |
| AdminCheckRoute.OnlyIdAndSuffixMatter | src/app/api/admin/check/route.ts:17-27 | two sessions that agree on having an id and on the e-mail suffix get the same response |
| AdminCheckRoute.AgreesWithCheckAdmin | src/app/api/admin/check/route.ts:17-25 | this route and `checkAdmin` with its status mapping give the same outcome for every session |
| FeaturesRoute.PlanPost | src/app/api/features/route.ts:19-31 | 401 exactly without an id, then 500 for an unreadable body, then 400 exactly when title or description is missing or empty; otherwise a row is planned with that title, that description and the session's id |
| FeaturesRoute.ExtraFieldsIgnored | src/app/api/features/route.ts:24 | fields other than `title` and `description` never change the outcome |
| FeaturesRoute.Post | src/app/api/features/route.ts:14-57 | a rejected request and a failed `create` (500) leave the table unchanged; success appends exactly one `OPEN` row with the given title and description and the session's id, and answers 201 with it; 201 exactly when one row was added |
| FeaturesRoute.Get | src/app/api/features/route.ts:59-92 | 401 without an id, 500 on a store failure, otherwise 200 with every request exactly once, each with all its votes, vote counts non-increasing |
| FeaturesRoute.ListedByVotes | src/app/api/features/route.ts:68-82 | the list query returns every row with all its votes, ordered by vote count descending |
| AdminUsersRoute.Annotate | src/app/api/admin/users/route.ts:40-44 | each user keeps its id, name and e-mail, in order, and gains `isAdmin` equal to the suffix test on its e-mail |
| AdminUsersRoute.Get | src/app/api/admin/users/route.ts:24-56 | a failed check or store call answers with the caught status and message; otherwise 200 with every user, newest first, annotated |
| AdminUsersRoute.Delete | src/app/api/admin/users/route.ts:58-84 | a failed check or store call leaves the user table unchanged; success leaves exactly the survivors of the suffix delete and answers 200 |
| AdminUsersRoute.DeleteKeepsExactlyAdmins | src/app/api/admin/users/route.ts:63-72 | survivors are admins (or have no e-mail); every admin row remains as often as before; every user with a non-admin e-mail is gone |
| AdminFeaturesRoute.Get | src/app/api/admin/features/route.ts:24-54 | a failed check or store call answers with the caught status and message; otherwise 200 with every request exactly once, each with all its votes, `createdAt` non-increasing |
| AdminFeaturesRoute.ListedNewestFirst | src/app/api/admin/features/route.ts:29-42 | the admin query returns every row with all its votes, newest first |
| AdminFeaturesRoute.Delete | src/app/api/admin/features/route.ts:56-77 | a failed check, or a failed first call, changes neither table; a failed second call leaves the votes gone and the requests in place; success empties both; no vote is ever left referencing a missing request; on an empty store every outcome leaves it empty |
| UserSlice.Reduce | src/lib/features/userSlice.ts:30-50 | `setUser` sets the user, `isAuthenticated` iff a user is given, `isAdmin` iff its e-mail has the suffix, and clears loading and error; `setLoading` changes only `loading`; `setError` sets the error, clears loading and keeps the user, `isAuthenticated` and `isAdmin`; `logout` gives `initialState`; the invariant is preserved |
| UserSlice.ReachableStatesValid | src/lib/features/userSlice.ts:18-50 | every state reached by any sequence of actions from a valid state is valid (`isAuthenticated` iff a user is held, `isAdmin` implies `isAuthenticated`, `isAdmin` iff the suffix test) |
| UserSlice.InitialValid | src/lib/features/userSlice.ts:18-24 | `initialState` satisfies the invariant |
| UserSlice.LogoutIdempotent | src/lib/features/userSlice.ts:44-50 | two logouts equal one, and any history ending in a logout ends in `initialState` |
| UserSlice.Slice.constructor | src/lib/features/userSlice.ts:18-24 | the fresh slice holds `initialState` |
| UserSlice.Slice.SetUser | src/lib/features/userSlice.ts:30-36 | the fields become `Reduce(old state, setUser)` and the invariant holds |
| UserSlice.Slice.SetLoading | src/lib/features/userSlice.ts:37-39 | the fields become `Reduce(old state, setLoading)`; the invariant is kept |
| UserSlice.Slice.SetError | src/lib/features/userSlice.ts:40-43 | the fields become `Reduce(old state, setError)`; the invariant is kept |
| UserSlice.Slice.Logout | src/lib/features/userSlice.ts:44-50 | the fields become `initialState` |

## Left out

- Persistence.SurvivorsOfSuffixDelete: the store's `endsWith` match in the user `deleteMany` (src/app/api/admin/users/route.ts:64-72) is taken to be exact and case-sensitive, as on PostgreSQL, the same test as JavaScript's `String.prototype.endsWith`; a case-insensitive collation (MySQL's default), under which `Alice@YourCompany.com` would survive the delete yet be listed with `isAdmin: false`, is not modelled, and `AdminUsersRoute.DeleteKeepsExactlyAdmins` holds only under the exact match.
- The session lookup is an input. A lookup that throws is not modelled, so neither is the 500 branch of `GET /api/admin/check` (src/app/api/admin/check/route.ts:28-34), which only that can reach.
- The creator's `name` (and, in the admin listing, `email`) that the queries embed through `include: { user: ... }` is not modelled: the model's rows carry only the feature and its votes.
- A JSON `title` or `description` that is not a string (a number, an object) is not modelled, because the body fields are `Option<string>`.
- Attachments, justification and priority are not modelled: the create handler reads only `title` and `description`.
- Vote add and remove, status updates and per-id deletes are not modelled: their handlers are not part of this model. So are the page's fetch handlers, React rendering and the admin layout's role-based redirect.
- What deleting a user does to that user's requests and votes depends on the database schema, which is not part of this model. `DELETE /api/admin/users` touches only the user table here.
- Concurrency and the atomicity of store calls are not modelled; each store call is one sequential step.
- `new Date(...).getTime()` is an integer timestamp here; JavaScript dates and floating point are not modelled.
- Ordering keys after the first in a query's `orderBy` are ignored, because the handlers never build more than one.
