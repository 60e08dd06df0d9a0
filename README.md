# Identity reconciliation of the notes dashboard

This project models the server side of the notes application's dashboard
layout (`app/dashboard/layout.tsx`). Each request for a dashboard page first
asks the identity provider for the session user. A request with no user, or
with a user whose email is falsy (absent or empty), is redirected to `/`
and never reaches the store. Otherwise `getData` looks the user's row up by
email. Only when there is none does it insert one row, with the provider's
id, the email, and the name "first last" (a missing part becomes empty).
A throw from either store call is not caught, so the request fails: no page
is rendered and no redirect is issued.

Modules:

- `Wrappers` (wrappers.dfy): `Option`, `Result` and `Outcome` values.
- `UserStore` (user_store.dfy): the User table as a class `UserTable`.
  - It holds a map from email to row, plus a ghost log of the calls made to the store.
  - `FindUnique` and `Create` are proved against the functions `FindResult` and `CreateResult`.
  - `TableValid` is the table invariant: each row sits under its own email, and ids are distinct.
- `Dashboard` (dashboard.dfy): the route guard, the name derivation, `getData` and the layout.
  - `GetData` and `DashboardLayout` are methods on the table.
  - `Reconcile` and `Visit` are the functions those methods are proved against.
- `Visits` (visits.dfy): requests served one after another. This module holds the
  properties that span visits: idempotence, at most one row per email, and rows
  never rewritten. They are proved by induction over the sequence of requests.

Three small helpers carry single expressions of the layout and have no row of their own:
`Truthy` is JavaScript truthiness of the session email (`!user.email`),
`OrEmpty` is the `?? ""` of the name derivation, and `NewUser` is the row
`getData` hands to `create`. Their behaviour is stated by the contracts of
`Guard`, `DeriveName` and `Reconcile`. `UserStore.Ids` is the set of ids in
use, needed for the id check of an insert.

The store's availability is an input. A `Connectivity` value says whether
the lookup and the insert each reach the store. The provider's session user
is an input too.

## Model

| member | source | states |
|---|---|---|
| `UserStore.FindResult` | app/dashboard/layout.tsx:39-47 | a lookup by email throws iff the store is unreachable, and otherwise finds a row iff one exists under that email, and that row carries the email |
| `UserStore.CreateResult` | app/dashboard/layout.tsx:52-58 | an insert succeeds iff the store is reachable and neither email nor id is taken; on success the table gains exactly that row (one more row), on failure it is unchanged; the table invariant is kept |
| `UserStore.UserTable.FindUnique` | app/dashboard/layout.tsx:39-47 | the lookup never changes the rows, logs one lookup, and returns what `FindResult` specifies |
| `UserStore.UserTable.Create` | app/dashboard/layout.tsx:52-58 | the insert keeps email and id uniqueness, logs one insert, and leaves the table and result that `CreateResult` specifies |
| `Dashboard.DeriveName` | app/dashboard/layout.tsx:51 | the name is the first name (or ""), one space, and the last name (or ""); its length is the sum of both parts plus one |
| `Dashboard.NameExamples` | app/dashboard/layout.tsx:51 | ("Ada", "Lovelace") gives "Ada Lovelace"; (none, none) gives " "; one missing part leaves a leading or trailing space |
| `Dashboard.NameSplits` | app/dashboard/layout.tsx:51 | two equal names whose first parts have the same length have the same parts, reading a missing part as empty |
| `Dashboard.NameLosesBoundary` | app/dashboard/layout.tsx:51 | without the boundary, different parts can give the same name, and a missing part gives the same name as an empty one |
| `Dashboard.Guard` | app/dashboard/layout.tsx:76-88 | the request is turned away iff there is no session user or its email is absent or empty; otherwise the props carry the session's email (non-empty), id, given and family names and picture |
| `Dashboard.Reconcile` | app/dashboard/layout.tsx:31-60 | exactly one lookup by email comes first; an insert is attempted iff the lookup succeeded and found no row; a failed lookup attempts no insert and throws; on a missing row the run passes iff the insert reaches the store and the id is free, and otherwise throws the insert's error (unreachable, or id taken); an existing row means no write; success on a missing row adds exactly the row (id, email, derived name), one more row; a throw leaves the table unchanged; other rows are never touched; uniqueness is kept |
| `Dashboard.Visit` | app/dashboard/layout.tsx:68-91 | a redirect to "/" happens iff the guard refuses, and then the store is neither read nor written; past the guard the table and the store calls are exactly those of `Reconcile`, and the page renders iff `Reconcile` passes and otherwise fails with its error (a failed lookup fails with `Unavailable`); a rendered page implies a row for the email; a failure is not a redirect, leaves the table unchanged and follows a store call; existing rows and uniqueness are kept |
| `Dashboard.GetData` | app/dashboard/layout.tsx:31-60 | the method's status, new table and logged calls are those that `Reconcile` specifies |
| `Dashboard.DashboardLayout` | app/dashboard/layout.tsx:68-91 | a refused session redirects to "/" with the table object unchanged; otherwise the page, new table and logged calls are those that `Visit` specifies |
| `Dashboard.ReconcileTwice` | app/dashboard/layout.tsx:38-59 | after one successful run for an email, a second run for the same email (any id or names) whose lookup reaches the store only looks the row up, inserts nothing and changes nothing |
| `Dashboard.PictureIgnored` | app/dashboard/layout.tsx:36-58 | the session's picture (`profileImage`) never affects the reconciliation or the request: the outcome, table and store calls are the same whatever it is |
| `Dashboard.ChangedEmailCollidesOnId` | app/dashboard/layout.tsx:38-58 | a user whose provider email changed while the id stayed the same misses on lookup, and the insert fails on the id, so the request fails and the table is unchanged |
| `Visits.ServeKeepsValid` | app/dashboard/layout.tsx:38-58 | email and id uniqueness hold after any sequence of requests |
| `Visits.ServeKeepsRows` | app/dashboard/layout.tsx:49-59 | no sequence of requests deletes or rewrites a row, so names and ids are never refreshed |
| `Visits.ServeAddsOnlyAdmitted` | app/dashboard/layout.tsx:76-88 | rows appear only for emails of requests the guard admitted, so never for an empty email |
| `Visits.ServeKnownEmail` | app/dashboard/layout.tsx:38-50 | requests for an email that already has a row never change the table |
| `Visits.RepeatedVisits` | app/dashboard/layout.tsx:38-59 | after a first request for an email renders, any number of further requests for it leave the table as the first left it |
| `Visits.OneEmailAtMostOneRow` | app/dashboard/layout.tsx:38-58 | any number of requests for one email add at most that one key and at most one row |

## Left out

- The identity provider's session call (`getKindeServerSession`, `getUser`) is a foreign library. Its result is an input `Option<SessionUser>`.
- Page markup, the sidebar navigation and the mechanics of `redirect` are not modelled. A request's outcome is the value `Page = Redirect("/") | Rendered | Failed(error)`.
- `components/Navbar.tsx` is presentational, and `app/lib/db.ts` only builds the database client. Neither is part of this model.
- The lookup selects `id` and `stripeCustomerId`, but only the presence of a row is used. The model returns the whole row and has no `stripeCustomerId` column.
- `profileImage` is passed to `getData` and never used. No column for it exists, so it cannot reach the store.
- The header comment mentions an optional update of the user's id on later logins. The code has no such update, and neither does the model: an existing row is never rewritten.
- Concurrent first logins are not modelled; requests are served one at a time.
  - The code has no conflict handling: a duplicate-key error from the insert propagates and the request fails.
  - A race-safe design would treat an email conflict on insert as success. The code does not, so the model does not either.
- The database schema is not part of this model.
  - Email is unique, as `findUnique` on it requires.
  - The model also takes `id` as a unique primary key, so an insert whose id is taken fails. `ChangedEmailCollidesOnId` rests on this assumption.
- A store call that throws is modelled as having had no effect: `CreateResult`, `Reconcile` and `Visit` promise an unchanged table on a throw. A real insert can commit and then lose its response (a time-out or a dropped connection), so `create` throws with the row already stored. That outcome is not modelled.
- Store failures are reduced to "unreachable" and "unique key violated". Which call fails is an input, not a model of the network.
