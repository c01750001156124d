# Github Tracker: a verified model

Github Tracker copies an organisation's pull requests, commits and reviews into a database and
answers, month by month, how much a user merged and reviewed. This project models its cores in Dafny
and proves what they do for all inputs, all answers of the remote and all interleavings.

`dafny verify dfyconfig.toml` checks everything.

## Layout

| file | what it models |
|---|---|
| `Calendar.dfy`, `Timestamps.dfy` | Go's normalising `time.Date`, the month windows, RFC 3339 timestamps |
| `Records.dfy`, `Encoding.dfy`, `Store.dfy` | records, their table rows, the store with its queries and the review join |
| `Sequences.dfy`, `Aggregation.dfy` | the per-repository totals of a report, with 64-bit wrap-around |
| `Reports.dfy` | a monthly report from table to totals, and runs of consecutive months |
| `Pagination.dfy`, `Sync.dfy` | paged listings; the synchroniser as a state machine over the answers it meets |
| `Overlap.dfy` | several runs of the synchroniser whose lookups and writes interleave |
| `Server.dfy` | `Update` and `UserInformation` as methods over the store, and results that span both |
| `Throttle.dfy`, `RateLimit.dfy` | the client throttle and the token budget |
| `Signals.dfy`, `StopProtocol.dfy`, `Process.dfy` | shutdown signalling, `Stop`, and start-up and teardown, separately and composed |
| `Base64.dfy`, `BasicAuth.dfy` | base64 (section 4 of RFC 4648) and Basic authentication (section 2 of RFC 7617) |

A method states its result or new state through a function (`Server.Server.Update` through
`Sync.UpdateOutcome`, for example); the lemmas say what that function means without naming its body.

What comes from outside is a parameter: the answers of the GitHub API (`Sync.Run`), whether the
database answers a call (`up`, `lookupUp`, `writeUp`, `answered`), the interleaving (`seq<Event>`), the
digest.

## Where the code and its promises part

Each of these is proved: the exact condition for all inputs or all runs, and a case at one input.

- **Month windows.** Day 0 is the last day of the *previous* month, so the report of a month leaves
  out what happened after midnight on the month's last day and the next month's report has it
  instead: an instant is in the window of its own month exactly when it is not later than midnight on
  that last day (`ReportedInOwnMonth`, `NoonOnLastOfMay`). `BETWEEN` is inclusive, so adjacent reports
  both count an instant on their common boundary (`WindowsTile`, `MidnightIsInBothWindows`).
- **Freshness.** The comment at server/update.go:78 promises to update only when the remote is more
  recent; the test at server/update.go:79 is `stored.After(remote)`. `Sync.Guard` has both
  directions; `Server.Server.Update` takes the one in the code. Under it the stored time is the
  *earliest* time ever listed, and the row says what the first visit listing that time brought
  (`FoldContent`, `RowIsCurrentIff`, `NewerRemoteIsIgnored`); under the comment's direction it is the
  latest. So a row is not refreshed while the remote moves forward (`StaleOverRuns`), and a pull request
  first stored while open stays out of every report as long as listed times do not go back, even once
  merged (`FirstSeenOpenStaysOut`; exactly when it is shown: `FirstSeenOpenShownIff`).
- **Review join.** Rows are stored with bare repository names but reviews are looked up as
  `decred/<name>` unless the name contains `decred`, so all other reviews are dropped from every
  report (`ReviewsSurviveIff`, `BareRepositoryIsUnmatched`).
- **Failing lookups.** Every review is looked up in a call of its own, and any error of that call drops
  the review while the report succeeds (`ReviewReportedIff`, `UnansweredReviewIsLost`).
- **Throttle.** Refused clients count while they are in flight, so a client can be refused with nobody
  being served (`RefusedIffCrowded`, `RefusedWhileIdle`).
- **Stop.** It is documented to block until shutdown completes. Only the call whose test finds the quit
  channel open blocks (`WaitsIff`, `SecondCallerDoesNotWait`), and it does not wait for requests that
  register once it has woken up (`OutlivesStopIff`, `LateRequestIsNotAwaited`); exactly these can be
  running when the database is closed (`RunningAtDatabaseClose`, `RequestSeesDatabaseClose`).
- **Token budget.** No budget is ever loaded again exactly when the budget is negative
  (`NeverReloadsIff`, `NegativeReplyEndsLimit`).
- **Start-up.** The process exits with the database open exactly when setting up the tables failed
  (`TeardownOrder`, `FailedSetUpLeavesDatabaseOpen`).
- **Storage.** A record reads back as it was exactly when its commits and reviews have no sizes
  (`StoredRecord`, `CommitSizesAreLost`).
- **Overlapping runs.** Nothing serialises `Update`. A write keeps the earliest listed time exactly
  when no other run has meanwhile stored an earlier one than it brings (if it updates) or a later one
  (if it creates) (`WriteKeepsExtremeIff`, `OverlapLosesEarlierTime`); runs over different URLs always
  keep it (`FreshnessWhenDisjoint`). Coverage holds in every interleaving (`OverlappingRunsCover`).

## Model

| member | source | states |
|---|---|---|
| `Calendar.NextDayNumber` | server/userinfo.go:20-21 | the closed-form day count advances by one exactly when the calendar does |
| `Calendar.CivilOfDay` | server/userinfo.go:20-21 | walking the calendar from 1970 inverts the day count for every day |
| `Calendar.CivilIsUnique` | server/userinfo.go:20-21 | no two valid dates have the same day count |
| `Calendar.WindowAliases` | server/userinfo.go:20-21 | for all integers, a window ends where the next month's starts, and twelve months more is one year more |
| `Calendar.WindowLength` | server/userinfo.go:20-21 | every window is as long as its month, 28 to 31 days, for all integers year and month |
| `Calendar.WindowOrder` | server/userinfo.go:20-21 | the start depends only on 12y + m and strictly increases with it |
| `Calendar.WindowOnCalendar` | server/userinfo.go:20-21 | a window is the month without the time after midnight on its last day, plus the last day of the month before |
| `Calendar.ReportedInOwnMonth` | server/userinfo.go:20-21 | an event is in the window of its own month iff it is not after midnight on the month's last day |
| `Calendar.LastDayIsReportedLate` | server/userinfo.go:20-21 | events after that midnight are in the next month's window and not in their own |
| `Calendar.NoonOnLastOfMay` | server/userinfo.go:20-21 | concrete case: noon on 31 May 2020 is reported in June |
| `Calendar.MidnightIsInBothWindows` | server/userinfo.go:20-21 | concrete case: midnight of 31 May 2020 is reported in May and in June |
| `Calendar.EpochWindow` | server/userinfo.go:20-21 | the instant 0 lies in the window of January 1970 and its aliases only |
| `Calendar.KnownInstants` | server/userinfo.go:20-21 | concrete instants: the epoch, century years leap and not, months outside their range |
| `Timestamps.ParseFormat` | server/pr.go:34-40 | formatting any instant of years 0 to 9999 and parsing it gives the instant back |
| `Timestamps.FormatParse` | server/pr.go:34-40 | a string parses only if it is the one timestamp of its instant |
| `Timestamps.ParsesTimeOfDay` | server/pr.go:34-40 | concrete case: a timestamp with all six fields different |
| `Timestamps.ParseTimeFallback` | server/pr.go:34-40 | the zero time means unparseable or the one timestamp of the zero time itself |
| `Encoding.EncodePullRequest` | database/cockroachdb/encoding.go:64-92 | the append loops build the row of the record, commits and reviews in order |
| `Encoding.DecodePullRequest` | database/cockroachdb/encoding.go:95-124 | the append loops build the record of the row, in order |
| `Encoding.RowShows` | database/cockroachdb/encoding.go:12-92 | a row is that of a record iff every column holds the field of its name, commits and reviews likewise, sizes of commits 0 |
| `Encoding.StoredRecord` | database/cockroachdb/encoding.go:12-124 | storing and reading back zeroes commit and review sizes and nothing else; it is the identity iff they were zero |
| `Encoding.CommitSizesAreLost` | database/cockroachdb/encoding.go:12-35 | concrete case: a commit of 5 added and 2 deleted lines reads back with none |
| `Encoding.StoredAlike` | database/cockroachdb/encoding.go:12-92 | two records have the same row iff they differ at most in those sizes |
| `Encoding.StoringIsIdempotent` | database/cockroachdb/encoding.go:12-124 | decode after encode is idempotent, and encoding its result gives the same row |
| `Store.OtherReviewsStay` | database/cockroachdb/cockroachdb.go:44-59 | saving a pull request's reviews touches no other review |
| `Store.LastReviewWins` | database/cockroachdb/cockroachdb.go:44-59 | of several saved reviews with one ID the last is stored |
| `Store.CockroachDB.NewPullRequest` | database/cockroachdb/cockroachdb.go:44-49 | inserts row and reviews, or fails on a known URL or a dead database and changes nothing |
| `Store.CockroachDB.UpdatePullRequest` | database/cockroachdb/cockroachdb.go:54-59 | writes row and reviews whether or not the URL is known, or fails and changes nothing |
| `Store.CockroachDB.PullRequestByURL` | database/cockroachdb/cockroachdb.go:62-78 | the decoded row of the URL, or not-found, or the database's failure |
| `Store.CockroachDB.PullRequestsByUserDates` | database/cockroachdb/cockroachdb.go:80-102 | every pull request of the user merged in the closed interval, each once, and nothing else |
| `Store.CockroachDB.FindByNumber` | database/cockroachdb/cockroachdb.go:131-141 | the lookup of one review: some row of the repository and number, not-found, or the database's failure |
| `Store.CockroachDB.ReviewsByUserDates` | database/cockroachdb/cockroachdb.go:104-148 | fails iff the query fails; otherwise the user's reviews in the closed interval, joined row by row, those with no match or an unanswered lookup skipped |
| `Store.KeptAt` | database/cockroachdb/cockroachdb.go:122-147 | the increasing positions of exactly the rows whose lookup is answered and finds a pull request |
| `Store.JoinIsSubsequence` | database/cockroachdb/cockroachdb.go:122-147 | the join returns those rows in order, with their own unprefixed repository and the sizes of a match |
| `Store.ContainsIff` | database/cockroachdb/cockroachdb.go:128 | a name contains another iff it is some text, the other and some text |
| `Store.MatchesIff` | database/cockroachdb/cockroachdb.go:126-141 | a review matches a row iff numbers agree and the row's repository is the review's, prefixed "decred/" unless it contains "decred" |
| `Store.LookupNames` | database/cockroachdb/cockroachdb.go:126-130 | concrete cases: "dcrd" is prefixed, "decred-web" and "web-decred" are not |
| `Store.JoinOverBareNames` | database/cockroachdb/cockroachdb.go:126-141 | over bare names a review finds a match iff its repository contains "decred" and a row has its repository and number |
| `Store.BareRepositoryIsUnmatched` | database/cockroachdb/cockroachdb.go:126-141 | concrete case: a review of "dcrd" has no match beside the stored row of "dcrd" with its number |
| `Aggregation.GroupByOverwrites` | server/convert.go:110-119 | one more contribution to a known repository changes its row in place and no other |
| `Aggregation.GroupByAppends` | server/convert.go:120-128 | one to a new repository appends its row and leaves the others |
| `Aggregation.AddPullRequest` | server/convert.go:108-128 | the search-and-overwrite loop turns the group-by of what came before into that with one pull request more |
| `Aggregation.AddReview` | server/convert.go:140-158 | likewise for one review |
| `Aggregation.GroupByIsReport` | server/convert.go:103-172 | in terms of the inputs alone: one row for every repository among them, in order of first occurrence, each with its URLs in order and the wrapped sums of its own sizes |
| `Aggregation.ConvertToUserInformation` | server/convert.go:103-172 | the whole conversion yields that report, and both item lists in order, field by field |
| `Aggregation.ReposByFirstAppearance` | server/convert.go:108-158 | rows are exactly the contributing repositories, ordered by first appearance |
| `Aggregation.ReportConservesTotals` | server/convert.go:108-158 | every column sums, modulo 2^64, to that column over all inputs |
| `Aggregation.ReportConservesUrls` | server/convert.go:108-128 | the rows' pull request lists together are a permutation of the input URLs |
| `Aggregation.OrderIndependence` | server/convert.go:103-172 | permuting the inputs keeps repositories, totals and, up to order, pull requests |
| `Aggregation.TotalsOfConcat` | server/convert.go:108-158 | a repository's totals over a concatenation are the sums of its totals over the parts |
| `Aggregation.CellsOfConcat` | server/convert.go:108-158 | the reported 64-bit totals add up likewise |
| `Aggregation.NoOverflow` | server/convert.go:113-147 | if count times largest size is below 2^63 every reported total is the true sum |
| `Aggregation.WrapsAtInt64` | server/convert.go:113-147 | the totals have the range of signed 64-bit integers and wrap at its ends |
| `Reports.WindowsTile` | server/userinfo.go:20-30 | an instant is in exactly one of n consecutive windows, two on an inner boundary, none outside |
| `Reports.MonthTiling` | database/cockroachdb/cockroachdb.go:86-101 | any additive measure over n monthly queries is that over the whole span plus the inner boundaries once more |
| `Reports.ListedOnce` | database/cockroachdb/cockroachdb.go:86-101 | a stored pull request is listed in as many of n consecutive months as windows hold its merge time |
| `Reports.ReportsTile` | server/userinfo.go:19-34 | end to end: merge columns of n monthly reports sum to the span's sizes plus those on inner boundaries, modulo 2^64 and exactly if items times largest size stay below 2^63 |
| `Reports.ReportedOnce` | server/userinfo.go:19-34 | end to end: a stored pull request is shown in as many of n consecutive reports as windows hold its merge time |
| `Reports.ReviewsInReport` | server/convert.go:140-166 | the reviewed items are, in order, the kept reviews of the user in the interval, each with its own repository and state and a matching pull request's sizes |
| `Reports.ReviewReportedIff` | database/cockroachdb/cockroachdb.go:122-147 | a stored review of the user in the interval is reported iff its lookup is answered and it has a match |
| `Reports.UnansweredReviewIsLost` | database/cockroachdb/cockroachdb.go:131-141 | concrete case: both queries succeed, the pull request is stored, and its review is not reported |
| `Reports.ReviewsOverMonths` | database/cockroachdb/cockroachdb.go:108-147 | over n reports each matched review counts once per window that holds it and whose lookup of it was answered |
| `Reports.ReviewsTile` | database/cockroachdb/cockroachdb.go:108-147 | with all lookups answered n reports count the span's matched reviews plus those on inner boundaries once more |
| `Reports.UnmergedStaysOut` | server/userinfo.go:20-30 | no report other than January 1970's lists a pull request stored with MergedAt 0 |
| `Pagination.FetchAll` | api/pullrequests.go:50-86 | the page loop ends and returns the pages up to the first empty or failing one |
| `Pagination.PagingRefines` | api/pullrequests.go:50-125 | however a list is cut into non-empty pages it is returned in order; a failing page leaves a prefix beside the error |
| `Pagination.PagingComplete` | api/pullrequests.go:50-125 | the listing is complete without error iff no page of the data fails |
| `Sync.UnmergedIsZero` | server/convert.go:26-32 | MergedAt is stored as 0 iff there was no merge time or it was the epoch |
| `Sync.RunIsPrefix` | server/update.go:12-107 | however a run ends the store is as after some prefix of its visits, all of them if it completes |
| `Sync.AnsweredRunCompletes` | server/update.go:45-101 | database failures and unparseable timestamps never stop a run |
| `Sync.ExitHasCause` | server/update.go:12-107 | every failing exit has its cause among the answers; the panic comes from a review call |
| `Sync.VisitExit` | server/update.go:41-95 | a visit stops the run iff its details fail, or it has to write and its commits or its reviews fail; then with the matching exit and nothing stored |
| `Sync.VisitEffect` | server/update.go:41-104 | a visit stores, under the URL of the details, exactly the row and reviews the remote describes if all it needs gets through, and otherwise nothing |
| `Sync.CommitStored` | server/convert.go:52-63 | what is stored of a fetched commit: everything but its sizes |
| `Sync.StopsAtFirstCause` | server/update.go:20-105 | a cancellation, a failing listing or a failing call of a visit, whichever comes first, ends the run with its own exit and the store as it was found |
| `Sync.CompletesIff` | server/update.go:20-107 | a run over its repositories completes iff none of these occurs |
| `Sync.NoReposNoRun` | server/update.go:15-18 | a failing repository listing fails the run and changes nothing |
| `Sync.TasksAre` | server/update.go:20-37 | a run visits exactly the listed pull requests of its error-free listings, under the repository's bare name |
| `Sync.CancelBetweenRepos` | server/update.go:24-29 | a cancelled run has finished every repository before the one at which it noticed |
| `Sync.RunKeepsTable` | server/convert.go:15-41 | any run keeps rows keyed by URL, names bare, and Merged, ClosedAt, MergedBy unset |
| `Sync.FoldFrame` | server/update.go:37-104 | no visit removes a row, and a row changes only if details with its URL were fetched |
| `Sync.CleanRunCovers` | server/update.go:20-105 | an error-free run completes with exactly the old and the listed URLs, other rows untouched, repetitions allowed |
| `Sync.ExtremeIsExtreme` | server/update.go:78-79 | the minimum (code) or maximum (comment) used below bounds all its values and is one of them |
| `Sync.FoldTime` | server/update.go:78-97 | after error-free visits the stored time is that extreme of the old time and all listed ones |
| `Sync.FreshnessOverRuns` | server/update.go:78-97 | the same over any sequence of runs, so stored times only decrease (code) or only increase (comment) |
| `Sync.FoldContent` | server/update.go:78-97 | a row says exactly what the first visit brought whose time beats the stored one and all others, or what it said before if none beats it |
| `Sync.ContentOverRuns` | server/update.go:78-97 | the same over any sequence of error-free runs |
| `Sync.FirstVisitsStoreRemote` | server/update.go:37-103 | over an empty store and an unchanging remote every listed row says what the remote says |
| `Sync.FirstRunStoresRemote` | server/convert.go:15-41 | after a first error-free run over an unchanging remote every listed pull request is stored, column by column, as the remote describes it |
| `Sync.StoredRowsGoStale` | server/update.go:78-79 | as written, a row whose listed times are not before its stored one survives any run unchanged |
| `Sync.StaleOverRuns` | server/update.go:78-79 | the same through any sequence of runs |
| `Sync.RowIsCurrentIff` | server/update.go:50-103 | a visit leaves the row equal to the remote's detail iff absent before, guard fires, or equal already |
| `Sync.NewerRemoteIsIgnored` | server/update.go:78-79 | concrete case: an update of 2 May leaves the row of 1 May; under the comment's direction it would not |
| `Sync.UpdateIsIdempotent` | server/update.go:37-103 | a second error-free run that lists nothing new, in any order, and meets an unchanged remote leaves the pull request table as it is |
| `Sync.SecondRunIsIdle` | server/update.go:37-103 | with valid times a second run whose listings the first had met changes nothing, reviews included |
| `Overlap.UninterruptedIsStep` | server/update.go:37-103 | a lookup directly followed by its write is one iteration of the sequential loop, with its skips and aborts |
| `Overlap.AloneIsSequential` | server/update.go:20-107 | one run alone has, at any point, visited its first tasks one after the other, and has stopped iff the last did not complete |
| `Overlap.RunGoesOn` | server/update.go:20-107 | a run can take a step iff it has neither stopped nor visited everything, whatever the others do |
| `Overlap.OverlappingRunsCover` | server/update.go:37-103 | in every interleaving, whatever fails, no row is removed, every new row has a URL of fetched details, and what an error-free visit listed is there |
| `Overlap.CleanRunsCoverExactly` | server/update.go:50-103 | if nothing fails the table holds in the end exactly the old and all listed URLs |
| `Overlap.WriteKeepsExtremeIff` | server/update.go:72-97 | a write keeps the extreme of found and listed time iff nothing better came in since the lookup |
| `Overlap.FreshnessWhenUndisturbed` | server/update.go:72-97 | if all writes of error-free runs do, the stored time is the extreme over all finished visits, as for runs one after the other |
| `Overlap.FreshnessWhenDisjoint` | server/update.go:72-97 | error-free runs over different URLs keep that extreme in every interleaving |
| `Overlap.OverlapLosesEarlierTime` | server/update.go:50-76 | concrete case: two runs look before either writes, and the later time stays |
| `Server.ConvertCommits` | server/convert.go:43-50 | the append loop converts every commit, in order |
| `Server.ConvertReviews` | server/convert.go:65-74 | the append loop converts every review, in order, under the given repository and number |
| `Server.Server.FetchParts` | server/update.go:81-95 | commits and reviews of a pull request, or which of the two calls failed |
| `Server.Server.SyncPullRequest` | server/update.go:37-104 | one iteration of the inner loop, with skip, abort and panic exits, is one step of the state machine |
| `Server.Server.Update` | server/update.go:12-108 | the nested loops with their early returns leave the state machine's outcome, store and exit |
| `Server.Server.UserInformation` | server/userinfo.go:19-34 | fails iff a query fails; otherwise a report for this user and organization over exactly the normalised window and the reviews whose lookup is answered |
| `Server.OpenPullRequestsStayOut` | server/convert.go:26-32 | a pull request synchronised without merge time is in no monthly listing but January 1970's |
| `Server.FirstSeenOpenStaysOut` | server/update.go:78-79 | over any later runs that do not go back in time, a pull request first stored while open is in no report but January 1970's, even once merged |
| `Server.OpenShownIff` | server/update.go:78-79 | after error-free runs a pull request stored without merge time is shown in a month iff a visit won over it and brought the user and a merge time in the window |
| `Server.FirstSeenOpenShownIff` | server/update.go:78-79 | the same for a pull request first stored while open |
| `Server.SyncedIsReported` | server/convert.go:129-137 | a merged pull request whose row is current is reported once, with the repository, number, sizes and state the remote gave |
| `Server.FirstSyncReportsRemote` | server/update.go:20-105 | after a first error-free run over an unchanging remote a report shows exactly the remote's pull requests of the user merged in the interval, each once |
| `Server.FirstSyncReviewSizes` | database/cockroachdb/cockroachdb.go:126-146 | its reviewed items show the sizes the remote gave for a listed pull request of that number under the lookup name |
| `Server.ReviewsAreStored` | server/convert.go:65-85 | a visit that writes stores each review under its ID as the remote gave it |
| `Server.ReviewsSurviveIff` | database/cockroachdb/cockroachdb.go:126-141 | in a report over a store filled by runs a stored review appears iff its repository contains "decred", a synchronised pull request matches and its lookup is answered |
| `Throttle.ThrottleIsSafe` | jsonrpc/server.go:243-258 | in every interleaving the counter counts the clients in flight, at most `threshold` are served, and it is 0 iff nobody is in flight |
| `Throttle.SnapshotIsEntryCount` | jsonrpc/server.go:247 | a client's snapshot is one more than the clients in flight when it came in |
| `Throttle.InFlightIff` | jsonrpc/server.go:247-248 | a client is in flight exactly from its increment to its decrement |
| `Throttle.ClientsMoveFreely` | jsonrpc/server.go:246-257 | a client can always come in, and once in, served or refused, is out after two steps of its own |
| `Throttle.RefusedIffCrowded` | jsonrpc/server.go:247-254 | a client is refused iff at least `threshold` others were in flight when it came in |
| `Throttle.RefusedWhileIdle` | jsonrpc/server.go:247-254 | concrete case: threshold 1, a refusal while nobody is served |
| `RateLimit.Client.RateLimit` | api/ratelimit.go:9-45 | the retry loop leaves the budget and returns the result of one call of the specification |
| `RateLimit.CallExactly` | api/ratelimit.go:13-44 | with no token left the first reply that is not an empty budget decides: unreadable fails at once, a budget is taken over and one token of it spent |
| `RateLimit.CallResultIff` | api/ratelimit.go:13-44 | exactly when a call fails, is granted or sleeps |
| `RateLimit.CallEffect` | api/ratelimit.go:13-44 | a call without a token changes nothing; one with a token spends one, after loading at most one budget |
| `RateLimit.TokenLedger` | api/ratelimit.go:9-45 | over any run of calls tokens out are budgets loaded minus what remains, which is non-negative iff all budgets were |
| `RateLimit.LoadsOnlyWhenSpent` | api/ratelimit.go:14-38 | a new budget is loaded only when the last one is handed out exactly |
| `RateLimit.NegativeBudgetNeverReloads` | api/ratelimit.go:14-40 | after a negative budget every call is granted without asking the server |
| `RateLimit.NeverReloadsIff` | api/ratelimit.go:14-40 | no calls ever load a budget again iff the budget is negative |
| `RateLimit.NegativeReplyEndsLimit` | api/ratelimit.go:14-40 | concrete case: after a reply of -1 a call is granted that asks for nothing |
| `StopProtocol.ClosedExactlyOnce` | jsonrpc/server.go:175-199 | quit and listeners are closed at most once, by one thread, the listeners first, and exactly once when any call has returned; one thread at a time is inside the mutex |
| `StopProtocol.RunningIff` | jsonrpc/server.go:129-171 | a serve goroutine runs from the start until it has ended, a request from registering until it has finished |
| `StopProtocol.OutsideIsFree` | jsonrpc/server.go:129-171 | calls of Stop, requests and serve goroutines are never held up |
| `StopProtocol.ReturnsAfterDraining` | jsonrpc/server.go:163-199 | the closing thread returns only after a moment with no serve goroutine and no registered request |
| `StopProtocol.WaitsIff` | jsonrpc/server.go:175-199 | a returned call had waited iff its test of the quit channel found it open |
| `StopProtocol.OutlivesStopIff` | jsonrpc/server.go:129-131 | after the waiting call woke up the running requests are exactly those that registered since and have not finished |
| `StopProtocol.StopCanProceed` | jsonrpc/server.go:175-199 | no deadlock: while a call is unfinished some step of a caller, a request or a serve goroutine is possible, the latter with all listeners closed |
| `StopProtocol.LateRequestIsNotAwaited` | jsonrpc/server.go:129-131 | concrete case: a request registers after that thread returned |
| `StopProtocol.SecondCallerDoesNotWait` | jsonrpc/server.go:176-182 | concrete case: a second caller returns while a registered request is active |
| `Signals.SignaledOnce` | signal.go:29-71 | the channel is closed at most once and contexts are cancelled only after that |
| `Signals.StateReflectsRun` | signal.go:29-71 | the listener leaves its first select with the first receive, the channel is closed iff the closing step was taken, and requests, interrupts and contexts are as the run left them |
| `Signals.NoRequesterIsStuck` | signal.go:40-71 | from every reachable state two steps of the listener release any blocked requester and leave the channel closed |
| `Signals.InterruptLeadsToShutdown` | signal.go:40-61 | so do they for a buffered interrupt or anything received |
| `Signals.ContextsFollow` | signal.go:29-38 | once the channel is closed every context is cancelled by one step of its own goroutine |
| `Signals.OutsideIsFree` | signal.go:29-71 | interrupts, requests and new contexts are never held up |
| `Process.StopProjection` | github-tracker.go:89-105 | the composed process behaves on its server as the stop protocol does |
| `Process.TeardownOrder` | github-tracker.go:51-105 | database after Stop after shutdown was signalled, log after database; left open iff set-up failed |
| `Process.ProcessCanProceed` | github-tracker.go:51-105 | no deadlock: until it has exited the process can take a step, and while main waits an interrupt can come |
| `Process.DrainedBeforeDatabaseCloses` | github-tracker.go:82-104 | when the database closes, everything registered had finished at some moment during Stop |
| `Process.RunningAtDatabaseClose` | github-tracker.go:82-104 | the requests running as the database closes are exactly those registered after Stop woke up and not finished |
| `Process.RequestSeesDatabaseClose` | github-tracker.go:82-104 | concrete case: a request is running as the database closes |
| `Process.FailedSetUpLeavesDatabaseOpen` | github-tracker.go:64-80 | concrete case: setting up the tables fails and the process exits with the database open |
| `Base64.DecodeEncode` | jsonrpc/server.go:145-159 | decoding an encoding gives the bytes back, for all byte strings |
| `Base64.EncodeDecode` | jsonrpc/server.go:145-159 | only encodings decode |
| `Base64.EncodeIsInjective` | jsonrpc/server.go:145-159 | two byte strings are equal iff their encodings are |
| `Base64.LetterIsAlphabet` | jsonrpc/server.go:147 | the letters are those of the table of section 4 of RFC 4648, the padding is "=" |
| `Base64.TestVectors` | jsonrpc/server.go:147 | test vectors of section 10 of RFC 4648 |
| `Base64.EncodeInto` | jsonrpc/server.go:155-157 | the in-place encoder writes the encoding at the offset and leaves the rest of the buffer alone |
| `BasicAuth.HttpBasicAuth` | jsonrpc/server.go:145-159 | the buffer sized in advance is filled exactly, with the concatenation form |
| `BasicAuth.HeaderBytes` | jsonrpc/server.go:145-159 | the header is "Basic ", then the encoding of user-id, ":" and password |
| `BasicAuth.AladdinsHeader` | jsonrpc/server.go:145-159 | the example of section 2 of RFC 7617, byte by byte |
| `BasicAuth.HeaderRoundTrip` | jsonrpc/server.go:145-159 | reading the header back gives user-id and password iff the user-id has no colon |
| `BasicAuth.HeadersIdentifyCredentials` | jsonrpc/server.go:284-285 | headers are equal iff the joined credentials are; for colon-free user-ids iff both parts are |
| `BasicAuth.ColonIsAmbiguous` | jsonrpc/server.go:145-159 | a colon can move between user-id and password without changing the header |
| `BasicAuth.AuthErrorKinds` | jsonrpc/server.go:221-233 | a request without header gets the one error, one with a wrong header the other |
| `BasicAuth.InvalidAuthIff` | jsonrpc/server.go:274-288 | with a collision-free digest exactly the authenticate requests with other joined credentials are invalid |
| `BasicAuth.AcceptsIffJoined` | jsonrpc/server.go:221-233 | with a collision-free digest, for any user name, a request is accepted iff its first header decodes to the joined credentials |
| `BasicAuth.AcceptsOnlyTheCredentials` | jsonrpc/server.go:221-233 | a header reads back as the configured credentials iff it is accepted and the user name has no colon |

## Left out

- Timestamps.ParseFormat: only `YYYY-MM-DDTHH:MM:SSZ` parses; offsets, fractions of a second and one-digit hours, which the GitHub API does not send, count as unparseable.
- Timestamps.FormatParse: holds of that one spelling only; `time.Parse` also reads other spellings of an instant.
- Timestamps.ParseTimeFallback: likewise, other spellings of the zero time are read as it.
- Sync.UnmergedIsZero: likewise, other spellings of the epoch are stored as 0.
- Sync, Server and Reports: runs and reports one after the other; only `Overlap` interleaves, and only the lookups and writes of runs, each write storing a row together with its reviews and following its fetches in one step.
- Overlap.FreshnessWhenDisjoint: stated for error-free runs.
- Overlap.FreshnessWhenUndisturbed: the condition is exact for each write; over a whole interleaving it is sufficient, since a later write can make good what an earlier one lost.
- Throttle.ThrottleIsSafe: the counter is an unbounded integer; 2^63 clients in flight at once would wrap it.
- RateLimit.TokenLedger: budgets are unbounded integers; sleeping is an arbitrary wait, and a call that exhausts the replies it is given is modelled as still asleep.
- Calendar.WindowOrder: years are unbounded integers; `time.Date` wraps beyond years of about 10^11.
- Reports.ReportsTile: merge columns; of reviews the number tiles (`ReviewsTile`), while their sizes depend on which match supplied them.
- Store.CockroachDB.ReviewsByUserDates: when several pull request rows match a review, any of them may supply the sizes.
- Store.CockroachDB.PullRequestByURL: a lookup of the empty URL, which gorm turns into an unconditional query, is an ordinary key here.
- SQL and gorm: pull requests are a map keyed by URL, reviews a map keyed by ID; the commits table, keyed only by pull request URL, and the foreign-key columns are not part of this model.
- In-place update of Go slices and records behind pointers is modelled on values: `repoStats` is a sequence that is reassigned, records are datatypes.
- `convertPRsandReviewsToUserInformation` is split into one method per inner loop and `Update` into one per iteration; the statements are the same.
- Date strings in results; `PullRequestInformation.mergedAt` is the instant they show.
- Callers of the token budget ignore its errors, so it never influences what `Update` fetches.
- HTTP, JSON, TLS, OAuth, configuration, logging, `cmd/ghctl`: library plumbing.
- Websocket clients, JSON-RPC dispatch, `AllUsersByDates`, `PRStats`, `FetchCommit`, events, releases and timelines: not started, stubs, or without state.
- `makeListeners`, `NewCommit`, `NewPullRequestReview` and their update forms, `convertDBPullRequestsToPullRequests`: would add only easy members.
- SHA-256 and constant-time comparison: the digest is any function; injectivity is assumed only in `BasicAuth.AcceptsIffJoined`, `BasicAuth.AcceptsOnlyTheCredentials` and `BasicAuth.InvalidAuthIff`.
- StopProtocol.OutlivesStopIff: waking up and finding the wait group at zero is one step; in Go a waiter released at zero may run after a later `Add`, and reusing the group then can panic.
- `http.Server.Serve` also closes its listener when it returns; only the closes of `Stop` are counted.
