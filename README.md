# Roster and admin session of the Danubreed member form, in Dafny

This project models the client-side logic of a youth-ministry registration front end. The front end sits over a remote REST service. The model covers three pieces:

- **The roster table** (`components/users-table.tsx`). The class `RosterView.UsersTable` holds the component's React state: the full list, the derived (searched) list, the current page, the loading flag, the unit filter, the search term and the inline-edit buffer. Its methods are the handlers: load, unit selection, search, membership toggle, start/edit/cancel/save, and the Previous/Next/numbered page buttons. React re-runs its search effect whenever the full list or the term changes. Here every handler that changes either one ends by running that effect (`Recompute`), so the state between handlers is the post-effect state. The pure parts are functions: the search predicate and the order-preserving filter (`Roster`, `Seqs`, `Text`), the page arithmetic (`Pagination`), the row updates of toggle and save, the response unwrap `data.users || data || []`, and the active-member count.
- **The admin session** (`context/auth-context.tsx`). `Auth.AuthProvider` holds the logged-in flag, the admin id and the loading flag. `Auth.Storage` stands for the browser's `localStorage`, with the keys `adminId` and `adminToken`. The methods are the mount-time rehydration, `login` and `logout`.
- **The login form** (`components/admin-login-form.tsx`). `LoginForm.AdminLoginForm.HandleSubmit` is the submit handler. It checks for empty fields, sets the loading flag, stores the token, calls `login` and clears the loading flag in `finally`. It writes to the same `Storage` object the provider reads, so the model gets the cross-component property that a successful login with a token survives a reload.

Every remote call is a parameter: a `Response<T>` that is either `Received(body)` or `Failed` (the awaited promise threw). A handler returns the `Api.Request` it would have issued. Toasts and router pushes are not state. The login handler's navigation to the dashboard is returned as a boolean.

Points where the code's behaviour is easy to misread:

- **Rehydration.** The session is restored only when both stored values are non-empty strings, not merely present.
- **Who stores what on login.** `login` persists only the admin id. The form stores the token, and only when the response carries a non-empty one. The form calls `login` even without a token.
- **Page reset.** The search effect resets the page after every change of the full list, so toggling, saving, loading and searching all return to page 1. Re-entering the same search term changes no state, so it does not reset the page.
- **Save.** A save always builds a new list, so it resets the page even with no row under edit.

## Model

| member | source | states |
|---|---|---|
| `Text.LowerChar` | components/users-table.tsx:92-93 | `A`-`Z` go to the matching `a`-`z` (code point plus 32), every other character is left as it is, and no result is an upper-case ASCII letter |
| `Text.Lower` | components/users-table.tsx:92-93 | `toLowerCase` keeps the length and lower-cases position by position |
| `Text.LowerIdempotent` | components/users-table.tsx:92-93 | lower-casing a lower-cased string changes nothing |
| `Text.Includes` | components/users-table.tsx:92-94 | `includes` is true exactly when the needle occurs at some position of the string |
| `Text.IncludesEmpty` | components/users-table.tsx:90-94 | the empty string occurs in every string |
| `Seqs.Keep` | components/users-table.tsx:91 | `filter` returns no more rows than it is given; each returned row satisfies the test and comes from the input; every input row that satisfies the test is returned |
| `Seqs.KeepIsOrderedSublist` | components/users-table.tsx:91-95 | the filtered list embeds into the input at strictly increasing positions, and no satisfying position is skipped |
| `Seqs.KeepConcat` | components/users-table.tsx:91 | filtering a concatenation is concatenating the filtered parts |
| `Seqs.KeepAll` | components/users-table.tsx:91 | the filter keeps the whole list (equivalently: its whole length) exactly when every row passes |
| `Seqs.KeepNone` | components/users-table.tsx:91 | the filter returns nothing exactly when no row passes |
| `Seqs.KeepMap` | components/users-table.tsx:88-111 | a row map that never changes the filter test commutes with the filter |
| `Roster.NameSearchIgnoresCase` | components/users-table.tsx:91-95 | two terms that agree after lower-casing can only give different results for a row through its raw phone match |
| `Roster.NameEqualUpToCaseMatches` | components/users-table.tsx:92-93 | a first name or surname equal to the term up to case always matches |
| `Roster.FilterSpec` | components/users-table.tsx:88-97 | an empty term leaves the list as it is; any other term gives the order-preserving sublist of exactly the rows whose lower-cased first name or surname contains the lower-cased term, or whose raw phone contains the raw term |
| `Roster.FilterExtremes` | components/users-table.tsx:88-97 | a term that every row matches keeps the list; a non-empty term gives no rows exactly when no row matches |
| `Roster.OverlayNeutral` | components/users-table.tsx:118-133 | overlaying `{}` or a row's own snapshot leaves the row unchanged |
| `Roster.OverlaySnapshot` | components/users-table.tsx:118-133 | overlaying a snapshot of `v` gives `v`, except that timestamps `v` lacks are kept from the base row |
| `Roster.SetMembershipEffect` | components/users-table.tsx:108-110 | the toggle keeps the length; rows with the id get the new status and nothing else changes; all other rows are unchanged |
| `Roster.SetMembershipUndo` | components/users-table.tsx:105-110 | toggling back restores the list, when every row with the id had the old status |
| `Roster.SetMembershipCommutesWithFilter` | components/users-table.tsx:88-111 | the toggle does not change which rows the search shows: filtering the toggled list equals toggling the filtered list |
| `Roster.ApplyEditEffect` | components/users-table.tsx:131-133 | save keeps the length; it overlays the buffer on exactly the rows with the edited id and leaves every other row unchanged; with no edit in progress it changes no row |
| `Roster.ApplyEditIdempotent` | components/users-table.tsx:131-133 | saving the same buffer twice is the same as saving it once |
| `Roster.SaveRestoresSnapshotStatus` | components/users-table.tsx:105-137 | if a membership change is confirmed while the row is being edited, saving gives the row its snapshot status back |
| `Roster.ActiveCount` | components/users-table.tsx:402-403 | the active-member count never exceeds the number of listed rows |
| `Roster.ActiveCountSpec` | components/users-table.tsx:402-403 | the count equals the list length exactly when every row is active; it is zero exactly when none is; it adds up over concatenation |
| `Pagination.TotalPages` | components/users-table.tsx:101 | the page count is the ceiling of n/100: the pages hold all n rows, no page is entirely past the end, and there are no pages exactly when there are no rows |
| `Pagination.PageSlice` | components/users-table.tsx:102-103 | a page has at most 100 rows; row k of page p is row (p-1)*100+k; a page in range has min(100, n-start) rows and is not empty; a page past the end is empty |
| `Pagination.PagesFromSuffix` | components/users-table.tsx:101-103 | pages p, p+1, ... laid end to end give the rows from page p's start onwards |
| `Pagination.PagesPartition` | components/users-table.tsx:101-103 | pages 1..totalPages laid end to end give back exactly the list |
| `Pagination.ShowingMatchesPage` | components/users-table.tsx:352 | on a page in range, the "Showing x to y" label satisfies 1 <= x <= y <= n and covers exactly the rows that page shows |
| `Pagination.PageButtons` | components/users-table.tsx:364-365 | there are at most 5 buttons; they start at 1 when there is a page and are consecutive; they are exactly pages 1..min(5, totalPages) |
| `Pagination.NavigationStaysInRange` | components/users-table.tsx:355-388 | from a page in range, Previous and Next stay in range and move at most one page; Previous stays put only on page 1, Next only on the last page |
| `Pagination.TwoHundredFiftyRows` | components/users-table.tsx:101-103 | with 250 rows there are 3 pages; page 1 is rows 1-100; page 3 is rows 201-250 and is the last page |
| `RosterView.LoadedRowsSpec` | components/users-table.tsx:72-78 | a wrapped body gives its `users`, even an empty array; a bare array gives itself; a falsy body, a null body and a failed call give `[]`; no rows come back exactly in those cases or for an empty array |
| `RosterView.ListRequest` | components/users-table.tsx:67-71 | the list-all endpoint is used exactly when no unit is selected; otherwise the by-unit endpoint is used for that unit |
| `RosterView.UsersTable.PaginatedUsers` | components/users-table.tsx:101-103 | the rows on screen number at most 100, and some are shown whenever the derived list is not empty |
| `RosterView.UsersTable.ActiveMembers` | components/users-table.tsx:402-403 | the active-member figure of the view never exceeds the derived list and equals its length exactly when every listed row is active |
| `RosterView.UsersTable.constructor` | components/users-table.tsx:37-44 | the initial state: both lists empty, page 1, loading, no unit, no term, no edit |
| `RosterView.UsersTable.Recompute` | components/users-table.tsx:88-99 | the derived list becomes the filter of the full list, and the page goes back to 1 |
| `RosterView.UsersTable.Load` | components/users-table.tsx:63-82 | the request depends on the unit filter; the full list becomes `data.users`, else `data`, else `[]`, or empty on failure; the filter is re-run and the page reset; loading ends false; unit, term and edit state are kept |
| `RosterView.UsersTable.SelectUnit` | components/users-table.tsx:84-86 | a different unit triggers a load for that unit; the same unit changes nothing and issues no request |
| `RosterView.UsersTable.SetSearchTerm` | components/users-table.tsx:88-99 | a new term re-filters the unchanged full list and resets the page to 1; the same term changes nothing |
| `RosterView.UsersTable.ToggleMembership` | components/users-table.tsx:105-116 | the request sends the negated status; on success the rows with that id get `!currentStatus` in both lists and the page goes back to 1; on failure nothing changes |
| `RosterView.UsersTable.StartEdit` | components/users-table.tsx:118-121 | the row's id is the one under edit, and the buffer is a snapshot of the row |
| `RosterView.UsersTable.EditField` | components/users-table.tsx:225-287 | an input of the row under edit writes its one key of the buffer; with no row under edit nothing changes |
| `RosterView.UsersTable.CancelEdit` | components/users-table.tsx:123-126 | no row is under edit and the buffer is `{}`; the rows are not touched |
| `RosterView.UsersTable.SaveEdit` | components/users-table.tsx:128-138 | the buffer is overlaid on the rows with the edited id (no row changes when none is edited); the edit state is cleared; the filter is re-run and the page reset |
| `RosterView.UsersTable.PreviousPage` | components/users-table.tsx:349-362 | when the bar is shown and this is not page 1, the page becomes max(1, p-1); otherwise it is unchanged; the page stays in range |
| `RosterView.UsersTable.NextPage` | components/users-table.tsx:382-389 | when the bar is shown and this is not the last page, the page becomes min(totalPages, p+1); otherwise it is unchanged; the page stays in range |
| `RosterView.UsersTable.GoToPage` | components/users-table.tsx:364-369 | only a rendered button, 1..min(5, totalPages), changes the page; the page stays in range |
| `RosterView.ChoirScenario` | components/users-table.tsx:63-99 | after choosing "Choir" with no search term, the by-unit request is issued and a `{users: rows}` response fills the full and the derived list identically, on page 1 |
| `Auth.StoredAdminSpec` | context/auth-context.tsx:22-27 | the stored session is restored, with the stored id, exactly when both keys hold non-empty strings |
| `Auth.LogoutForgets` | context/auth-context.tsx:40-41 | after logout nothing is restored; logging out twice is logging out once; other keys are kept |
| `Auth.AuthProvider.constructor` | context/auth-context.tsx:16-46 | the provider starts logged out, with no id and loading, so it renders no children |
| `Auth.AuthProvider.Rehydrate` | context/auth-context.tsx:21-29 | with a non-empty stored id and token the session is logged in with that id; otherwise it is unchanged; loading ends false; storage is not written; the invariant is kept |
| `Auth.AuthProvider.Login` | context/auth-context.tsx:31-35 | logged in as `id`; `adminId` is written to the store and `adminToken` is left alone |
| `Auth.AuthProvider.Logout` | context/auth-context.tsx:37-42 | logged out with no id; both keys are removed from the store |
| `Auth.OpenPage` | context/auth-context.tsx:15-29 | a freshly mounted provider is logged in exactly when the store holds a usable session, with its id |
| `Auth.LogoutThenReload` | context/auth-context.tsx:21-42 | after logout, a reloaded page is logged out with no id |
| `LoginForm.SuccessWithTokenIsRestored` | components/admin-login-form.tsx:34-38 | after a successful login that returned a token, the stored session restores the same admin |
| `LoginForm.SuccessWithoutTokenIsNotRestored` | components/admin-login-form.tsx:34-38 | a successful login without a token, over a store without one, leaves nothing that restores |
| `LoginForm.AdminLoginForm.constructor` | components/admin-login-form.tsx:17-19 | the form starts with empty fields and is not loading |
| `LoginForm.AdminLoginForm.EnterAdminId` | components/admin-login-form.tsx:57 | the admin-id field takes the typed value |
| `LoginForm.AdminLoginForm.EnterPassword` | components/admin-login-form.tsx:70 | the password field takes the typed value |
| `LoginForm.AdminLoginForm.BeginSubmit` | components/admin-login-form.tsx:24-29 | the form proceeds exactly when both fields are non-empty; if so loading is on during the call; if not loading is unchanged |
| `LoginForm.AdminLoginForm.Settle` | components/admin-login-form.tsx:30-45 | on success a truthy token is stored, `login(adminId)` runs and the page navigates away; on failure there is no write, no login and no navigation; loading ends false |
| `LoginForm.AdminLoginForm.HandleSubmit` | components/admin-login-form.tsx:21-46 | with an empty field: no request, no write, no login, loading unchanged; otherwise the login request is sent with both fields; on success a truthy token is stored, the session is logged in as `adminId` and its loading flag is kept; on failure the session and store are unchanged; the form's loading ends false |
| `LoginForm.LoginThenReload` | components/admin-login-form.tsx:34-38 | a successful login with a token, followed by a reload, gives a session logged in as the same admin |
| `LoginForm.TokenlessLoginThenReload` | components/admin-login-form.tsx:34-38 | a successful login without a token gives a live logged-in session that a reload does not restore |

## Left out

- `Text.Lower`: only lower-cases the ASCII letters. `toLowerCase` is a Unicode case mapping, which is not modelled.
- `Text.LowerChar`: ASCII only, for the same reason.
- `formatDate` (components/users-table.tsx:46-61) is left out: it depends on JavaScript `Date` parsing and locale formatting.
- The Refresh button (components/users-table.tsx:181) calls the same handler as `Load`. It has no separate member.
- Out-of-order list responses are left out. A unit change starts a new load without cancelling the one in flight. Each load here is one atomic step with its response already known, so the stale-overwrite race is not modelled.
- Stale closures are left out. Handlers read the state of the last render; here they read the current state.
- Loading gating of the row buttons is not modelled. While loading, the table shows only a spinner. Pagination honours this (`PaginationShown`); the row handlers (toggle, edit) do not check the loading flag.
- `Roster.Unwrap`: a response body that is an object without a `users` array is not modelled. The source would then store that object as the list.
- `LoginForm.AdminLoginForm.Settle`: a login body that is `null`, or a token that is not a string, is not modelled.
- `utils/api.ts` is reduced to the `Api.Request` values. This leaves out the base URL, axios and the bearer-token interceptor.
- `components/registration-form.tsx` is left out. Its required-field checks belong to a form library whose code is not visible.
- Rendering-only files are left out: the app pages, `components/admin-dashboard.tsx` (logout button and navigation) and the dashboard's post-render redirect. So are JSX, toasts and router pushes.
- The error thrown by `useAuth` outside a provider (context/auth-context.tsx:51-56) is left out. It is a React context wiring check.
- `schoolStatus` and `servingUnit` are plain strings. The code enforces no enumeration, and the option lists differ between files.
