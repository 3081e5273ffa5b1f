# leetcode-sync: a verified model of the synchronisation core

This project models the synchronisation core of `src/action.js` in Dafny and proves properties of the model. The core mirrors a user's accepted LeetCode solutions into a GitHub branch, one commit per solution. It has these parts:

- **`LANG_TO_EXTENSION` and `commit`** (`languages.dfy`, `commit_builder.dfy`, `githost.dfy`).
  - `commit` rejects a language with no extension before it touches the host.
  - Otherwise it creates one tree holding `<title>/solution_<id>.<ext>` on top of the cursor's tree.
  - It then creates one commit on top of the cursor's commit. The message is `[Add LeetCode submission] - <title> (<lang>)`. Author and committer are one identity with one date.
  - It force-moves `heads/<branch>` to the new commit and returns the new (tree, commit) pair.
  - The Octokit calls are the methods of a `Host` class. Its ghost state is the tree store, the commit store and the refs. In the model, each call that creates an object hands out a fresh SHA.
- **`addToSubmissions`** (`dedup.dfy`).
  - It skips submissions whose status is not 10.
  - It keeps one `{timestamp, id}` per (title, lang) in a nested dictionary. A stored entry survives only against a strictly older submission, so the latest wins and the last seen wins on ties.
  - It then appends every id in the dictionary to `submissions`: titles in insertion order, and each title's languages in insertion order.
  - The dictionary is the value `Dict`. Its entries by key are a map, with the insertion order of titles and of each title's languages kept beside them. The `Accumulator` class holds the mutated state and runs the loops.
- **The identity scan** (`checkpoint.dfy`). The commits are signed with the author of the newest listed commit whose message starts with the marker. If there is none, the oldest listed commit's author is used.
- **`getSubmissions` and the paging loop** (`backoff.dfy`, `discovery.dfy`).
  - A failed fetch is retried after 3^k seconds, until the retry count reaches `maxRetries`, and then rethrown.
  - `maxRetries` is 0 for the first page and 5 after it.
  - Every page after the first is preceded by a 1 s pause. `offset` grows by 20 per page while `has_next` holds.
  - As written, the loop never gets past its first page (see "## Findings").
  - `Discovery.DiscoverAsWritten` models the loop as written.
  - `Discovery.DiscoverFrom` is the repaired loop as a function: the undeclared `details` is dropped from the call at src/action.js:281. `Sync.SyncRun.Discover` is the imperative repaired loop, proved against that function. The rest of the model, and every paging-loop row below that does not say "as written", describes the repaired loop.
- **The commit loop** (`replay.dfy`, `sync.dfy`).
  - It walks `submissions` from the last index to the first.
  - It starts from the newest listed commit and its tree, and threads the returned (tree, commit) pair into the next call.
  - `Replay` gives the resulting store as functions of the writes made. The proofs cover four things:
    - the new trees and commits are the solutions' own;
    - the objects already in the store are left alone;
    - the branch points at the last new commit;
    - following first parents from it leads back, one per write, to the starting commit.

`Sync.SyncRun.Run` puts the parts together in the source's order: the identity scan, the paging loop, then the commit loop.

The external calls are parameters:
- The branch's listed history is `seq<ListedCommit>`.
- The submission list is a `Listing`, which holds the pages and which fetch attempts fail.
- The branch name is a string.
- The detail fetch is a function from id to `SubmissionRecord`.

Some of the source's own comments promise more than its code does. The model follows the code:

- **Commits are not oldest-first.** The comment at src/action.js:302 says the loop writes "in reverse order (oldest first)". The loop does commit the reverse of the flattened id list, but that list is grouped by title rather than sorted by time.
  - `Discovery.FlattenGroupsByTitle` takes three accepted submissions: X in Python at time 300, then Y at time 200, then X in C++ at time 100. They flatten to X/py, X/cpp, Y.
  - `Replay.QueueReversed` then gives the commit order Y, X/cpp, X/py. The author dates come out 200, 100, 300, not oldest first.
- **Ids repeat.** The whole dictionary is appended after every page, not once after discovery. Later pages therefore re-list the ids of earlier ones (`Discovery.SnapshotsRepeatAcrossPages`), and the commit loop commits those solutions again.
- **Nothing is newer than the last run.** The comments at src/action.js:161 and src/action.js:237 say the run gets the time the syncer last ran and fetches only the submissions "greater than the timestamp". The code computes no such time: the listed history is used only to choose the identity and the starting cursor. Every run re-lists, and re-commits, every accepted solution.
- **As written, the paging loop never adds a page, and the commit loop never writes a commit.** See "## Findings".

## Model

| member | source | states |
|---|---|---|
| Languages.Extension | src/action.js:48-50 | The guard passes exactly for the languages listed in `LANG_TO_EXTENSION`; the extension is the table's, and it is never empty. |
| Languages.CommitMessageFor | src/action.js:73 | The message starts with the marker `[Add LeetCode submission]` and goes on with ` - <title> (<lang>)`. |
| Languages.DecimalRoundTrip | src/action.js:52 | The decimal rendering of a submission id reads back as that id. |
| Languages.SolutionPathRoundTrip | src/action.js:52 | For a title without `/`, the path `<title>/solution_<id>.<ext>` parses back to exactly that title, id and extension. |
| Languages.SolutionPathInjective | src/action.js:52 | Two slash-free titles with ids and extensions give the same path only when all three agree, so distinct solutions never share a file. |
| Backoff.GetSubmissions | src/action.js:257-271 | The result is that of the last attempt made. Every earlier attempt failed and was followed by a wait of 1000·3^k ms for retry count k. No more than `maxRetries − retryCount` waits happen. A failure is returned only once the retry budget is spent. |
| Backoff.TotalWait | src/action.js:266-269 | The waits of one call sum to the geometric series: twice the total equals 1000·(3^(r+n) − 3^r) for n retries from count r. |
| Backoff.FiveRetriesWaitAtMost121Seconds | src/action.js:268-274 | With the later pages' budget of 5, one fetch retries at most 5 times and waits at most 121 s in total. |
| Backoff.NoRetriesMeansOneAttempt | src/action.js:263-264 | With `maxRetries` 0 there is one attempt and no wait, and its failure is rethrown as is. |
| Backoff.TwoFailuresThenSuccess | src/action.js:262-269 | Two failures then a success wait 1 s then 3 s and return the third attempt's response. |
| Checkpoint.FirstMarkerOrNone | src/action.js:228-235 | Without a marker commit in the list, the scan keeps the fallback. |
| Checkpoint.FirstMarkerOrAt | src/action.js:229-234 | The scan stops at the first commit, newest first, whose message starts with the marker, and takes its author. |
| Checkpoint.FirstMarkerOrIsFirstMarker | src/action.js:228-235 | Both cases together: the first marker commit's author, otherwise the fallback. |
| Checkpoint.ResolveCommitInfo | src/action.js:228-235 | The loop's identity is the chosen one: absent exactly for an empty list, the first marker commit's author when there is a marker commit, and the oldest commit's author otherwise. |
| Checkpoint.NewestOwnCommitFixesIdentity | src/action.js:229-234 | Once the newest listed commit is one the sync wrote, the next run signs with that commit's author. |
| Checkpoint.SingleMarkerWins | src/action.js:229-234 | A single marker commit anywhere in the list decides the identity, whoever authored the tip. |
| CommitBuilder.SolutionCommitShape | src/action.js:69-86 | The created commit has author equal to committer, with `commitInfo`'s name and email, date timestamp·1000 ms, parents exactly `[latestCommitSHA]`, the new tree, and a message starting with the marker. |
| CommitBuilder.Commit | src/action.js:34-99 | It fails exactly for an unknown language, with the source's message, and then leaves the host unchanged. Otherwise it adds exactly the solution's tree and commit under fresh SHAs, in that order, moves the branch to the commit, and returns the new (tree, commit) pair. |
| GitHost.Host.CreateTree | src/action.js:62-67 | Stores the tree under a fresh SHA and changes nothing else. |
| GitHost.Host.CreateCommit | src/action.js:70-86 | Stores the commit under a fresh SHA and changes nothing else. |
| GitHost.Host.ForceUpdateRef | src/action.js:88-94 | Points the ref at the commit whatever it pointed at before (`force: true`) and changes nothing else. |
| Dedup.StepEntries | src/action.js:118-136 | One submission changes the entries only when it is accepted and no stored entry for its key is strictly newer, and then only at its key. |
| Dedup.StepNewTitle | src/action.js:118-127 | An accepted submission of a new title registers the title, then its language, with its entry. |
| Dedup.StepNewLanguage | src/action.js:122-127 | An accepted submission in a new language of a known title appends that language after the title's earlier ones. |
| Dedup.StepWellFormed | src/action.js:110-137 | One iteration keeps the nested dictionary consistent: distinct titles and languages, and an entry for exactly the listed (title, lang) pairs. |
| Dedup.AbsorbWellFormed | src/action.js:110-137 | The whole first loop keeps the nested dictionary consistent. |
| Dedup.AbsorbAppend | src/action.js:110-137 | Folding two pages one after the other gives the dictionary that folding their concatenation gives. |
| Dedup.AbsorbIgnoresRejected | src/action.js:110-113 | Submissions whose status is not 10 have no effect: the dictionary equals the one built from the accepted submissions alone. |
| Dedup.LatestWins | src/action.js:118-136 | From the empty dictionary, a key is present exactly when an accepted submission has it. Its entry is the winner's: the greatest timestamp, and the last seen among equals, because the skip test is a strict `>`. |
| Dedup.KeptIffSeen | src/action.js:118-127 | A key is in the dictionary exactly when some accepted submission seen has that title and language. |
| Dedup.KeptIsWinner | src/action.js:129-136 | The entry kept for a key is the winner's among the submissions seen for that key. |
| Dedup.LatestWinsExample | src/action.js:129-136 | Of two accepted "Two Sum" Python solutions at times 100 and 200, the one at 200 is kept. |
| Dedup.OrderedKeys | src/action.js:139-140 | The nested `for … in` loops visit every key of the dictionary exactly once. |
| Dedup.FlattenOnePerKey | src/action.js:139-143 | Flattening pushes exactly one id per (title, lang) entry, and each entry's own id at that entry's position. |
| Dedup.Accumulator.constructor | src/action.js:240-241 | `submissions` and `submissions_dict` start empty. |
| Dedup.Accumulator.AddToSubmissions | src/action.js:102-146 | The dictionary becomes the fold of the page into the old one. The old `submissions` stays as a prefix, followed by the flattened dictionary. It answers true. |
| Dedup.Accumulator.AbsorbPage | src/action.js:110-137 | The first loop leaves the dictionary equal to the fold of the page and keeps it consistent. |
| Dedup.Accumulator.Put | src/action.js:110-136 | One iteration of the first loop updates the fields to exactly `Step` of the old dictionary. |
| Dedup.Accumulator.PushSnapshot | src/action.js:139-143 | The nested loops append exactly `Flatten` of the dictionary after the old contents. |
| Dedup.Accumulator.PushTitle | src/action.js:140-142 | The inner loop appends the ids of one title's languages in their insertion order. |
| Discovery.Add | src/action.js:279-285 | A fetched page is folded into the dictionary, its flattening is appended, `response` becomes the page, and `offset` grows by 20. |
| Discovery.DiscoverAsWritten | src/action.js:242-287 | A run of the loop as written, with the undeclared `details` at :281. It always ends in an error after exactly one request: offset 0, limit 20, empty `lastkey`. The dictionary and `submissions` stay empty and `offset` stays 0. |
| Discovery.DiscoverFrom | src/action.js:242-287 | The repaired loop, with `details` dropped at :281. It keeps the dictionary consistent, keeps the ids collected before as a prefix, makes at least one request, and can end only in a fetch failure, never a ReferenceError. |
| Discovery.AfterRecord | src/action.js:243-279 | Logging page p's fetch after p added pages gives exactly the queries and the delays of pages 0 to p: offset 20·i, limit 20, the previous `last_key`, the 1 s pause and the backoff waits. |
| Discovery.FetchedPage | src/action.js:243-279 | At page p the fetch uses that page's retry budget, query and pause, and a failure is the exception of its last attempt. |
| Discovery.DiscoverFromStep | src/action.js:242-287 | Repaired loop. One iteration of the loop at page p, in terms of that page's fetch: stop on failure, go on while `has_next`, otherwise complete. |
| Discovery.AfterStart | src/action.js:238-241 | The state after no page is the initial one: `response` null, `offset` 0, nothing collected. |
| Discovery.DiscoverFromAfter | src/action.js:242-287 | Repaired loop. Entered after p pages, the loop ends as its last page dictates. |
| Discovery.LastPageShape | src/action.js:287 | Repaired loop. The last page a run requests lies within the listing; every page before it was fetched and had a next one; the last one failed or had none. |
| Discovery.DiscoveryOutcome | src/action.js:242-287 | Repaired loop. A whole run either fails with its last page's exception after adding the pages before it, or completes after adding every page. |
| Discovery.DiscoveryPaging | src/action.js:243-287 | Repaired loop. A run asks for offsets 0, 20, 40, … with `lastkey` empty first and then the previous `last_key`, and it requests exactly the delays of the pages it asked for. |
| Discovery.DiscoveryEnd | src/action.js:263-287 | Repaired loop. A run completes exactly when its last fetch succeeds, and that page has no next one. Otherwise it fails with that page's exception. In both cases `offset` moved 20 per added page. |
| Discovery.DiscoveryState | src/action.js:279-283 | Repaired loop. After a run, the dictionary is the fold of every added page in order, and `submissions` is one snapshot per added page. |
| Discovery.DiscoveryKeepsLatest | src/action.js:118-136 | Repaired loop. Across the whole run, the final dictionary keeps the winner of every key among the added pages' accepted submissions. |
| Discovery.FirstPageFailsFast | src/action.js:272-274 | A failing first fetch is not retried and not delayed: the run stops with that exception after one request. |
| Discovery.PageWaitsShape | src/action.js:274-278 | No delay comes before the first page. Every later page has the 1 s pause, then at most 5 backoff waits of 3^k s. |
| Discovery.NoFailureCompletes | src/action.js:287 | Repaired loop. Without failing fetches the loop completes. This holds only because the model's listing is finite: past the listed pages it answers an empty page without a next one. Against a server that always reports `has_next`, the source's loop would never stop. |
| Discovery.DetailsReferenceErrorStopsEveryRun | src/action.js:281 | As written, the loop always ends in an error before any id is collected, and on a listing without failures that error is the ReferenceError for `details`. The corrected loop completes on the same listing. |
| Discovery.SnapshotsRepeatAcrossPages | src/action.js:139-143 | Repaired loop. An accepted "A" on page one and an accepted "B" on page two give the id list [a, a, b]. |
| Discovery.FlattenGroupsByTitle | src/action.js:139-143 | Submissions X, Y, then X in another language flatten to X, X, Y, whatever their timestamps. |
| Replay.QueueReversed | src/action.js:303-304 | The j-th record committed is the detail of `submissions[len − 1 − j]`. |
| Replay.QueueOfConcat | src/action.js:303 | Ids appended later are committed earlier: the queue of a + b is the queue of b followed by that of a. |
| Replay.TreesKept | src/action.js:62-67 | Trees already in the store are untouched by the writes. |
| Replay.CommitsKept | src/action.js:70-86 | Commits already in the store are untouched by the writes. |
| Replay.TreeAt | src/action.js:306-315 | The j-th write's tree is in the store: the j-th solution's file on the tree the previous write returned, or on the starting tree. |
| Replay.CommitAt | src/action.js:306-315 | The j-th write's commit is in the store: the j-th solution's commit on the previous write's commit, or on the starting commit. |
| Replay.WroteStep | src/action.js:306-315 | One more `commit` on the cursor extends the writes by the pair it returns, keeping the whole store description. |
| Replay.ReplayedIsLinear | src/action.js:306-315 | Going back k first parents from the m-th cursor's commit reaches the cursor k writes earlier. |
| Replay.RawResponseWritesNothing | src/action.js:303-315 | As written, `commit` gets the raw detail response, whose `lang` reads as `undefined`. The loop then stops at its first record with "Language undefined does not have a registered extension." and writes nothing: no tree, no commit, branch unmoved, cursor at the start. |
| Replay.DescendsFromStart | src/action.js:299-316 | From the last new commit, one first parent per write leads back to the commit the run started on. |
| Sync.SyncRun.constructor | src/action.js:238-241 | A run starts with `response` null, `offset` 0, a freshly allocated accumulator holding nothing, and nothing written. |
| Sync.SyncRun.Discover | src/action.js:242-287 | The imperative repaired paging loop (`details` dropped at :281) ends in exactly the state and error that `DiscoverFrom` gives from its starting state. |
| Sync.SyncRun.Fetch | src/action.js:257-279 | The head of the loop body fetches the page with its retry budget and logs the pause, the query and the waits. |
| Sync.SyncRun.Absorb | src/action.js:281-285 | The rest of the body is `addToSubmissions` on the response, then `response` and `offset += 20`. |
| Sync.SyncRun.CommitAll | src/action.js:303-316 | The commit loop, with the records it passes to `commit` repaired (see "## Findings"), writes the queued records in order, threading the cursor. It stops after all of them or at the first unknown language, with that error. The store, refs and cursor are those `Replay` describes. |
| Sync.SyncRun.WriteNext | src/action.js:304-315 | One iteration: `commit` the next record on the cursor and move the cursor to the returned pair, or stop with the unknown-language error and write nothing. |
| Sync.SyncRun.Identify | src/action.js:228-235 | The run has an identity exactly when the list has a commit, and it is the chosen one. |
| Sync.SyncRun.Run | src/action.js:228-316 | An empty history fails with `NoCommits` and leaves the host untouched. Otherwise the identity is the chosen one, the repaired paging loop runs as `DiscoverFrom` says, a discovery error fails the run before any write, and the commit loop starts from the newest listed commit and its tree. |
| Sync.SyncRun.Proceed | src/action.js:238-316 | After the identity scan: the repaired paging loop, then, unless it failed, the commit loop from the given commit, with the run's result mapped from their errors. |

## Left out

- HTTP transport (`axios.get`, `axios.post`, headers, cookies) and the GraphQL query text of `getSubmissionDetails` are I/O. The submission list is the `Listing` parameter. The detail fetch is the function `details` from id to record, which never fails.
- The detail lookup: the source makes none that yields the fields `commit` reads.
  - The query at src/action.js:179-216 asks for neither `title` nor `id`, and it returns `lang` as an object `{name, verboseName}`.
  - The value passed at src/action.js:304 is the whole axios response.
  - As written, `submission.lang` is therefore `undefined`, and the first `commit` call throws at src/action.js:48-49 before any host call (`Replay.RawResponseWritesNothing`; see "## Findings").
  - The model's `details(id)` stands in for the lookup the source evidently meant: a record with the submission's id, title, language tag, timestamp and code.
- Sync.SyncRun.Run: the Octokit calls `listCommits` and `repos.get` are replaced by the `history` and `defaultBranch` parameters. `listCommits`' limit of 100 commits is not modelled.
- CommitBuilder.Commit: a failure of `createTree`, `createCommit` or `updateRef` is not modelled; host calls always succeed.
- The history's own commits and trees are not put in the host store. The model says nothing about them beyond leaving existing objects untouched.
- SHAs are modelled as naturals handed out in increasing order, one fresh SHA per created object.
- GitHost.Host.CreateTree: content addressing is not modelled. Git names a tree by its contents, so re-committing an unchanged solution (as happens once ids repeat) gets back the base tree's SHA, where the model hands out a new one. The same holds for commits with identical contents.
- `new Date(...).toISOString()` is modelled as the instant in milliseconds (`EpochMillis`). Its ISO-8601 text and the RangeError for an out-of-range timestamp are not modelled.
- `delay`/`setTimeout` are recorded as a ghost list of requested durations rather than slept.
- The queries sent are recorded as a ghost list rather than sent.
- `log` and `console.log` output are not modelled.
- Submission ids are natural numbers rendered in decimal. Their type as the API returns it is not checked.
- JavaScript `for … in` visits integer-like keys in numeric order before string keys. Flattening uses plain insertion order for titles and languages.
- Inherited `Object.prototype` keys are not modelled. Neither are `undefined`/`null` fields and other dynamic-typing cases of the response (a missing `submissions_dump`, a non-number timestamp).
- Past the listed pages, the list answers with an empty page without a next one. This keeps the loop's run finite.
- The identity is `commit.author` as a name and email only.

## Findings

| source | as written | input that shows it | evidently intended | confidence | as-written member | corrected member |
|---|---|---|---|---|---|---|
| src/action.js:281 | `addToSubmissions({response, details, submissions_dict, submissions})` names `details`, which is declared nowhere in scope. Building the argument throws a ReferenceError right after the first fetch succeeds, before any page is added. | Any listing whose first fetch succeeds, e.g. one page and no failing fetch. The run throws `ReferenceError: details is not defined` and collects no id. | The argument is dropped, since `addToSubmissions` never reads it, and the loop folds every page in. | high (not executed) | Discovery.DetailsReferenceErrorStopsEveryRun | Sync.SyncRun.Discover |
| src/action.js:304 | `const submission = await getSubmissionDetails(submissions[i])` passes the whole axios response to `commit`. The GraphQL query asks for neither `title` nor `id` and nests `lang` as `{name, verboseName}` under `data`, so `submission.lang` is `undefined`. | Any run that reaches the commit loop with at least one collected id. `commit` throws `Language undefined does not have a registered extension.` before any host call, so no commit is ever written. | `commit` gets a record with the submission's id, title, language tag (`lang.name`), timestamp and code, and the loop writes one commit per collected id. | high (not executed) | Replay.RawResponseWritesNothing | Sync.SyncRun.CommitAll |
