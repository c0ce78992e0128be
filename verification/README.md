# Online voting front end — a Dafny model of its client-side logic

The application is a React single-page front end for a university online
voting system. Ballot validity, tallying and duplicate-vote prevention live on
a remote HTTP API; what the client itself decides is modelled here:

- **Ballot state machine** (`Voting`, `src/pages/student/VotingPage.jsx`): the
  vote-check load, grouping of candidates by position, candidate selection,
  position switching and `handleVote`, as a class `VotingPage` whose fields are
  the page's state and whose methods are its handlers. Votes sent to the server
  are recorded in a log field, so "no request is sent" is a frame fact.
- **Results** (`Results`, `src/pages/student/Results.jsx`): the total-vote
  sum, the zero-guarded percentage, winner and rank taken from server order,
  the chart arrays, the rule that picks the initially selected election, and
  the page's state updates (class `ResultsPage`).
- **Route guard and route table** (`Routes`, `src/App.jsx`): `ProtectedRoute`
  as a pure decision over (loading, user, required role), the static route
  table, what a path renders for a session, and the absence of redirect loops
  for the two known roles.
- **404 home link** (`NotFound`, `src/pages/NotFound.jsx`).
- **Session store** (`Auth`, `src/contexts/AuthContext.jsx`): the stored
  token (a map field standing for `localStorage`), `user`, `loading`, and the
  request bodies its operations build, as class `AuthProvider`.
- Supporting modules: `Api` (server answers, entities), `Json` (JavaScript
  values and objects, property reads, rest destructuring, `String()`), and
  `UrlEncoding` (the `application/x-www-form-urlencoded` serializer that
  `URLSearchParams.toString()` uses, section 5.2 of the WHATWG URL Standard,
  with a reference parser after section 5.1).

Every server answer is a parameter of the handler that awaits it:
`Response<T> = Ok(data) | Fail(message)`, where `message` is the server's
`error.response.data.message` if any. Each handler runs as one atomic step.

Two behaviours of the code are worth stating plainly:

- `handleVote` does not refuse a position already in `votedPositions`; it only
  checks that a candidate is selected. A voted position can therefore be
  re-submitted while the ballot is on screen, and it then appears twice in
  `votedPositions` (`Voting.RevoteVotedPosition` exhibits this).
- Only the initial `/auth/me` check drops the stored token, and it does so on
  any failure; no other request clears it, whatever its status code.

## Model

| member | source | states |
|---|---|---|
| Json.Get | src/App.jsx:41 | a property read yields the value of the (first) entry under that key, and `undefined` for a key the object lacks |
| Json.GetStored | src/App.jsx:41 | in an object with distinct keys, reading a key gives the value stored under it |
| Json.Without | src/contexts/AuthContext.jsx:59 | the rest object holds exactly the entries whose key differs from the removed one, in their original order |
| Json.GetWithout | src/contexts/AuthContext.jsx:59 | reading the rest object gives `undefined` under the removed key and the original value under any other key |
| Json.WithoutKey | src/contexts/AuthContext.jsx:59 | the same fact for every key at once |
| UrlEncoding.Utf8DecodeChar | src/contexts/AuthContext.jsx:50 | decoding one character's UTF-8 bytes yields that character and leaves the following bytes untouched |
| UrlEncoding.Utf8RoundTrip | src/contexts/AuthContext.jsx:50 | UTF-8 decoding inverts UTF-8 encoding for every string |
| UrlEncoding.DecodeEncodedByte | src/contexts/AuthContext.jsx:50 | percent-decoding inverts the encoding of one byte (kept, `+`, or `%HH`) |
| UrlEncoding.DecodeEncodedBytes | src/contexts/AuthContext.jsx:50 | percent-decoding inverts percent-encoding for every byte sequence |
| UrlEncoding.EncodedHasNoDelimiters | src/contexts/AuthContext.jsx:50 | an encoded name or value never contains `&` or `=` |
| UrlEncoding.TextRoundTrip | src/contexts/AuthContext.jsx:50 | decoding an encoded text gives it back, and the encoding holds no delimiter |
| UrlEncoding.ParseSerialize | src/contexts/AuthContext.jsx:38-50 | parsing the serialized body returns every name/value pair, in order, for any names and values made of Unicode scalar values |
| Auth.LoginBodyRoundTrip | src/contexts/AuthContext.jsx:38-50 | the login body carries exactly `grant_type=password`, then the matric number as `username`, then the password, for any credentials made of Unicode scalar values |
| Auth.FormOf | src/contexts/AuthContext.jsx:76-82 | the form has one entry per object entry, in key order; a file becomes a blob, any other value its `String()` text |
| Auth.DefinedEntriesMembers | src/contexts/AuthContext.jsx:110-116 | an entry is kept exactly when it is in the object and its value is not `undefined` |
| Auth.RegisterForm | src/contexts/AuthContext.jsx:76-82 | the `register` loop appends every key, whichever of its two identical branches it takes |
| Auth.ProfileForm | src/contexts/AuthContext.jsx:110-116 | the `updateProfile` loop appends, in order, exactly the entries whose value is not `undefined` (a profile-image file included) |
| Auth.AuthProvider.constructor | src/contexts/AuthContext.jsx:12-13 | mounted with the browser's storage, no user, loading, nothing sent |
| Auth.AuthProvider.CheckAuthStatus | src/contexts/AuthContext.jsx:17-31 | no token: no request and nothing changes; a token: one `GET /auth/me` with `Bearer <token>`, success sets the user, failure removes the token and keeps the user; loading ends either way |
| Auth.AuthProvider.Login | src/contexts/AuthContext.jsx:36-69 | sends the three login parameters; success stores `String(access_token)` under `token` and sets and returns the response without `access_token`, every other key unchanged; failure changes neither token nor user and rethrows the server message |
| Auth.AuthProvider.Register | src/contexts/AuthContext.jsx:71-96 | sends every field, changes neither token nor user, returns the response or rethrows |
| Auth.AuthProvider.Logout | src/contexts/AuthContext.jsx:98-102 | removes the token and clears the user |
| Auth.AuthProvider.UpdateProfile | src/contexts/AuthContext.jsx:104-134 | sends the defined fields with the stored token; success replaces the user with the response, failure keeps it and rethrows |
| Auth.StaleTokenSession | src/contexts/AuthContext.jsx:17-31 | an expired token: the check fails, nobody is signed in, the token is gone, and the next mount sends no request |
| Voting.AtPositionMembers | src/pages/student/VotingPage.jsx:88-96 | a position's list holds exactly the candidates with that position |
| Voting.GroupStep | src/pages/student/VotingPage.jsx:91-94 | pushing one candidate onto its position's list (created when missing) extends the grouping of the candidates seen so far by that candidate |
| Voting.GroupedIsGrouping | src/pages/student/VotingPage.jsx:88-96 | the map the candidate-by-candidate push builds has exactly the positions that occur as keys, and each list is that position's candidates in input order |
| Voting.GroupByPosition | src/pages/student/VotingPage.jsx:88-96 | a non-array answer gives the empty map; otherwise the loop builds the candidate-by-candidate grouping, so the keys are exactly the positions that occur and each list is that position's candidates in input order |
| Voting.GroupedMembers | src/pages/student/VotingPage.jsx:88-96 | in a grouping every candidate is in its own position's list, and each list holds only input candidates of that position |
| Voting.RemainingMembers | src/pages/student/VotingPage.jsx:142-144 | a position remains exactly when it is available and not voted |
| Voting.RemainingAfterVote | src/pages/student/VotingPage.jsx:138-144 | recomputing after one more vote equals dropping that position from the previous remaining list |
| Voting.RemainingShrinks | src/pages/student/VotingPage.jsx:138-144 | voting for a remaining position strictly shortens the remaining list |
| Voting.VotingPage.constructor | src/pages/student/VotingPage.jsx:19-30 | the page's initial state: nothing selected or voted, current position `""`, loading, no error, status (false, false) |
| Voting.VotingPage.Load | src/pages/student/VotingPage.jsx:34-107 | missing lists default to empty; the current position becomes the first remaining one when there is one; all-voted is true exactly when the remaining list is present and empty; each failure stage keeps the earlier updates and sets the server message or the fallback; loading ends either way |
| Voting.VotingPage.ApplyVoteCheck | src/pages/student/VotingPage.jsx:54-67 | missing lists default to empty; the displayed position becomes the first remaining one when there is one and stays otherwise; all-voted is true exactly when the remaining list is present and empty |
| Voting.VotingPage.ApplyDetails | src/pages/student/VotingPage.jsx:70-103 | a failed election or candidates request sets the server message or the fallback and changes neither election nor grouping; otherwise both are set and the error is untouched |
| Voting.VotingPage.SelectCandidate | src/pages/student/VotingPage.jsx:326-331 | only the current position's selection changes; every other position's selection stays, and no request is sent |
| Voting.VotingPage.SwitchPosition | src/pages/student/VotingPage.jsx:169-171 | the current position becomes the given one, voted or not, and nothing else changes |
| Voting.VotingPage.HandleVote | src/pages/student/VotingPage.jsx:112-167 | no selection: nothing is sent and nothing changes; otherwise one vote request for the selection, submitting ends false, a failure keeps voted positions, current position and status; a success appends the position, and either marks everything voted or moves to the first remaining position, which is available and not voted |
| Voting.VotingPage.PressCastVote | src/pages/student/VotingPage.jsx:184-417 | a button not on screen (still loading, an error shown, or every position voted) or disabled (no selection, or submitting) changes nothing and sends nothing; otherwise the click has `handleVote`'s full effect: one request for the selected candidate, the position appended to `votedPositions`, then the next remaining position or completion |
| Voting.NoVoteWithoutBallot | src/pages/student/VotingPage.jsx:184-252 | after the last position is voted, and after a failed load, a press sends no request |
| Voting.TwoPositionBallot | src/pages/student/VotingPage.jsx:112-167 | a two-position ballot voted through ends with both positions voted, status (true, true) and the two requests in order |
| Voting.RevoteVotedPosition | src/pages/student/VotingPage.jsx:112-171 | switching back to a voted position and voting again sends a second request and records the position twice |
| Results.CountAtMostTotal | src/pages/student/Results.jsx:352-355 | with non-negative counts, each row's count lies between 0 and the total |
| Results.TotalNonNegative | src/pages/student/Results.jsx:277 | with non-negative counts the total is non-negative |
| Results.Percentage | src/pages/student/Results.jsx:356-362 | zero when the total is not positive, otherwise count/total·100 exactly, and within 0..100 for a count within the total |
| Results.PercentageSumShare | src/pages/student/Results.jsx:351-362 | the percentages of some rows add up to their share of the total |
| Results.PercentagesAddUpTo100 | src/pages/student/Results.jsx:351-362 | with a positive total, the percentage column of the Detailed Results table adds up to exactly 100 |
| Results.ColumnIsPercentageSum | src/pages/student/Results.jsx:351-362 | each prefix of the table's percentage column sums to the percentages of the same results against the whole total |
| Results.Table | src/pages/student/Results.jsx:351-367 | one row per result, rank index+1, the candidate's name, its count and its percentage of the total |
| Results.WinnerIsRankOne | src/pages/student/Results.jsx:285-286 | the winner is the first result and is rank 1; when the server sorted by votes, no row has more votes or a larger percentage |
| Results.PercentageMonotone | src/pages/student/Results.jsx:356-362 | more votes never give a smaller percentage |
| Results.Chart | src/pages/student/Results.jsx:106-149 | labels and data have one entry per result and align with it by index |
| Results.ChartMatchesTable | src/pages/student/Results.jsx:106-149 | the chart data add up to the total votes, and each chart entry matches the table row of the same index |
| Results.Find | src/pages/student/Results.jsx:53-55 | nothing exactly when no election has that id; otherwise the first election with that id |
| Results.InitialSelection | src/pages/student/Results.jsx:52-68 | something is selected exactly when the list is non-empty, always a list member: the URL's election when it is in the list, otherwise the first |
| Results.ResultsPage.constructor | src/pages/student/Results.jsx:35-39 | the page's initial state: no elections, no selection, no results, loading, no error |
| Results.ResultsPage.FetchResults | src/pages/student/Results.jsx:79-96 | requests that election's results; success replaces the results, failure keeps them and sets the fixed error; loading ends either way |
| Results.ResultsPage.FetchElections | src/pages/student/Results.jsx:43-74 | failure sets the fixed error and ends loading; success stores the list, selects by the initial-selection rule and fetches that election's results, or ends loading for an empty list |
| Results.ResultsPage.HandleElectionChange | src/pages/student/Results.jsx:98-103 | selects the list's election with the chosen id (none if absent) and fetches results for the chosen id |
| Routes.ProtectedRoute | src/App.jsx:26-50 | loading gives the placeholder; no user redirects to `/login`; a required role the user lacks redirects to `/admin/dashboard` for `admin` and `/dashboard` otherwise; the children render exactly when not loading, signed in, and no role is required or it matches |
| Routes.FirstMatch | src/App.jsx:57-149 | nothing exactly when no route matches; otherwise the element of a matching route before which no route matches |
| Routes.Lookup | src/App.jsx:57-149 | every path resolves, thanks to the catch-all route, to the element of the first route that matches it |
| Routes.RedirectTargets | src/App.jsx:59-113 | `/login`, `/dashboard` and `/admin/dashboard` resolve to the login page, the student dashboard (role `student`) and the admin dashboard (role `admin`) |
| Routes.ProtectedRoles | src/App.jsx:63-145 | every protected route under `/admin` requires `admin`, every other one requires `student` |
| Routes.TableShape | src/App.jsx:58-148 | every `<Navigate>` entry of the table goes to `/login`; every protected entry requires `admin` or `student` |
| Routes.LookupShape | src/App.jsx:57-149 | the same for the element any path resolves to |
| Routes.TargetsRender | src/App.jsx:59-113 | after loading, `/login` shows the login page, and each dashboard shows for the role it requires |
| Routes.RenderProtected | src/App.jsx:26-50 | a protected path whose guard admits the session shows its page |
| Routes.RenderMismatch | src/App.jsx:41-47 | after loading, a protected path whose role the user lacks renders a redirect to `/admin/dashboard` for role `admin` and to `/dashboard` otherwise |
| Routes.RedirectsGoHome | src/App.jsx:37-61 | a render redirects only to `/login` (signed out or the `/` route) or to the user's role home |
| Routes.NoRedirectLoop | src/App.jsx:41-47 | signed out, or with role `admin` or `student`, any redirect lands on a page that renders: one hop, no loop |
| Routes.OtherRoleLoops | src/App.jsx:41-47 | any other role is sent from `/dashboard` to `/dashboard` again |
| NotFound.HomeLink | src/pages/NotFound.jsx:18-28 | signed out: `/login`, "Login"; the text is "Dashboard" exactly when signed in; `/admin/dashboard` exactly for role `admin`, `/dashboard` for every other signed-in user |
| NotFound.LinkIsGuardRedirect | src/pages/NotFound.jsx:19-25 | for a signed-in user the link target is the guard's redirect on a role mismatch |
| NotFound.LinkLandsOnPage | src/pages/NotFound.jsx:19-25 | signed out or with a known role, following the link renders a page |

## Left out

- Networking: axios calls, URLs and headers other than the session store's `Authorization` header are not modelled; each server answer is a parameter, and sent requests are logged in a field. The vote and results pages' requests are logged without their `Authorization: Bearer <stored token>` header ("Bearer null" when no token is stored).
- Toast notifications, `console.error`, JSX markup, Tailwind classes, date formatting and Chart.js drawing (colours included) are not modelled.
- React semantics: batched `setState`, effect dependencies and the un-awaited `fetchResults` call; each handler is one atomic step over the state it sees.
- Results.Percentage: the exact ratio, not the `toFixed(2)` string the page shows (floating-point rounding is left out).
- The progress bar width `votedPositions.length / availablePositions.length * 100` (a floating-point division that is `NaN` when there are no positions) is not modelled.
- Json.Value: numbers are integers; floating-point numbers, nested objects and arrays are not modelled, so `String()` of them is absent. `Json.ToText` prints every digit of an integer, whereas JavaScript's `String()` uses exponent notation from 10^21 up (`1e+21`) and numbers beyond 2^53 are not exact in JavaScript.
- Json.Object: an object is its entries in `Object.keys` order; JavaScript's moving of integer-like keys to the front is not modelled.
- Voting.GroupByPosition: the grouping object is a plain map; a position named like an `Object.prototype` property (such as `constructor`) behaves differently in JavaScript.
- Voting.VotingPage.Load: `hasVoted` is taken as a boolean and the lists as arrays of strings; a response where they are missing or of another type is not modelled.
- Results: result and election lists are sequences of well-formed rows; a non-array answer, where `.length` or `.reduce` would misbehave, is not modelled.
- Routes.Matches: exact, case-sensitive path comparison; React Router's case-insensitive matching, trailing slashes and ranked (rather than first-match) route selection are not modelled; apart from the catch-all `*`, which is last, no two routes of the table match the same path, so first-match and ranked selection agree.
- Auth: `localStorage` is a map from key to string; browser storage quotas and other tabs are not modelled.
- Auth.AuthProvider.Login: the request records the `URLSearchParams`; the body sent is `Auth.LoginBody` of them, whose content is stated by `Auth.LoginBodyRoundTrip` rather than in the method's contract.
- UrlEncoding: names and values are strings of Unicode scalar values; a JavaScript string holding an unpaired surrogate, which `URLSearchParams` replaces by U+FFFD, is not representable, and for it the round trip would not hold.
- UrlEncoding: only `toString()` is modelled; `URLSearchParams` parsing of query strings (used for the `election` URL parameter) is not.
- The admin pages, dashboards, profile and registration pages and both layouts are not part of this model: they fetch, set state and render forms.
- Server-side rules (duplicate-vote rejection, tallying, election lifecycle) are not in this code.
