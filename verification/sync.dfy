/**
 * `sync`: pick the identity to sign with from the branch's history, page through
 * the submission list folding each page into the accumulator, then write the
 * collected submissions from the last collected to the first, one commit each,
 * on top of the branch's newest commit.
 */
module Sync {
  import opened Wrappers
  import opened Languages
  import opened Dedup
  import opened Backoff
  import opened Discovery
  import opened GitHost
  import opened CommitBuilder
  import opened Checkpoint
  import opened Replay

  /** Why a run is rejected. */
  datatype SyncError =
    | NoCommits                             // the branch lists no commit: reading its oldest one throws a TypeError
    | DiscoveryFailed(cause: DiscoveryError)
    | CommitFailed(message: string)         // `commit` threw

  /** The variables of one call of `sync`. */
  class SyncRun {
    /** The name and email the commits are signed with. */
    var commitInfo: Person
    var response: Option<Page>
    var offset: nat
    /** `submissions_dict` and `submissions`. */
    const acc: Accumulator
    /** The delays requested and the queries sent, in order (recorded, not slept or sent). */
    ghost var waits: seq<nat>
    ghost var requests: seq<Request>
    /** `treeSHA` and `latestCommitSHA`. */
    var cursor: Cursor
    /** The cursors the commit loop has returned so far. */
    ghost var written: seq<Cursor>

    ghost predicate Valid()
      reads this, acc
    {
      acc.Valid()
    }

    /** The paging loop's state, as the value its specification runs on. */
    ghost function Discovered(): Progress
      reads this`response, this`offset, this`waits, this`requests, acc
    {
      Progress(acc.Current(), acc.submissions, waits, requests, response, offset)
    }

    /** A run before its first statement; `commitInfo` and `cursor` are set later. */
    constructor ()
      ensures Valid() && fresh(acc) && Discovered() == Start && written == []
    {
      commitInfo := Person("", "");
      response := None;
      offset := 0;
      acc := new Accumulator();
      waits := [];
      requests := [];
      cursor := Cursor(Sha(0), Sha(0));
      written := [];
    }

    /**
     * The paging loop: request page after page, each through `getSubmissions`,
     * add every response to the accumulator, and stop after a page without a
     * next one or at the first fetch that still fails after its retries.
     */
    method Discover(l: Listing) returns (error: Option<DiscoveryError>)
      requires Valid()
      modifies this`response, this`offset, this`waits, this`requests, acc
      ensures Valid()
      ensures Outcome(Discovered(), error) == DiscoverFrom(l, 0, old(Discovered()))
    {
      var p := 0;
      while true
        invariant Valid() && p <= |l.pages|
        invariant DiscoverFrom(l, p, Discovered()) == DiscoverFrom(l, 0, old(Discovered()))
        decreases |l.pages| - p
      {
        ghost var s := Discovered();
        var fetched := Fetch(l, p);
        if fetched.result.Failure? {
          return Some(FetchFailed(fetched.result.error));
        }
        var page := fetched.result.value;
        assert page == PageAt(l, p);
        Absorb(page);
        if !page.hasNext {
          return None;
        }
        p := p + 1;
      }
    }

    /** The head of the loop body: pause after the first page, then fetch page `p` with its retry budget. */
    method Fetch(l: Listing, p: nat) returns (fetched: Retried<Page, FetchError>)
      modifies this`waits, this`requests
      ensures fetched == GetSubmissions(Attempts(l, p), MaxRetries(old(Discovered())), 0)
      ensures Discovered() == Record(old(Discovered()), fetched)
    {
      var maxRetries := if response.None? then FirstPageRetries else LaterPageRetries;
      if response.Some? {
        waits := waits + [PagePause];
      }
      requests := requests + [Request(offset, PageSize, if response.None? then "" else response.value.lastKey)];
      fetched := GetSubmissions(Attempts(l, p), maxRetries, 0);
      waits := waits + fetched.waits;
    }

    /** The rest of the loop body: `addToSubmissions`, then `response` and `offset`. */
    method Absorb(page: Page)
      requires Valid()
      modifies this`response, this`offset, acc
      ensures Valid()
      ensures Discovered() == Add(old(Discovered()), page)
    {
      // `addToSubmissions` always answers true, so the `break` it guards never fires.
      var _ := acc.AddToSubmissions(page.submissions);
      response := Some(page);
      offset := offset + PageSize;
    }

    /**
     * The commit loop: from the last collected id to the first, look the
     * submission up and `commit` it on the cursor, which moves to the pair it
     * returns; the first failing `commit` ends the loop with its error.
     */
    method CommitAll(host: Host, defaultBranch: string, details: Id -> SubmissionRecord, ghost before: Store,
                     ghost start: Cursor)
      returns (error: Option<string>)
      requires host.Valid() && host.State() == before && cursor == start
      modifies this`cursor, this`written, host
      ensures host.Valid()
      ensures Committed(host.State(), before, commitInfo, start, Queue(acc.submissions, details),
                        written, cursor, defaultBranch, error)
    {
      var ids := acc.submissions;
      ghost var queue := Queue(ids, details);
      QueueReversed(ids, details);
      written := [];
      error := None;
      var i := |ids| - 1;
      while i >= 0 && error.None?
        invariant -1 <= i < |ids| && |written| == |ids| - 1 - i
        invariant host.Valid()
        invariant Wrote(host.State(), before, commitInfo, start, queue, written, cursor, defaultBranch)
        invariant error.Some? ==> 0 <= i && Extension(queue[|written|].lang).None?
                                  && error.value == UnsupportedLanguage(queue[|written|].lang)
        decreases i, if error.None? then 1 else 0
      {
        error := WriteNext(host, defaultBranch, details(ids[i]), before, start, queue);
        if error.None? {
          i := i - 1;
        }
      }
    }

    /**
     * One iteration of the commit loop: `commit` the next queued record on the
     * cursor and move the cursor to the pair it returns, or stop with its error.
     */
    method WriteNext(host: Host, defaultBranch: string, submission: SubmissionRecord, ghost before: Store, ghost start: Cursor,
                     ghost queue: seq<SubmissionRecord>)
      returns (error: Option<string>)
      requires host.Valid()
      requires |written| < |queue| && submission == queue[|written|]
      requires Wrote(host.State(), before, commitInfo, start, queue, written, cursor, defaultBranch)
      modifies this`cursor, this`written, host
      ensures host.Valid()
      ensures error.None? ==> |written| == |old(written)| + 1
      ensures error.Some? ==> written == old(written) && Extension(submission.lang).None?
                              && error.value == UnsupportedLanguage(submission.lang)
      ensures Wrote(host.State(), before, commitInfo, start, queue, written, cursor, defaultBranch)
    {
      ghost var mid := host.State();
      var r := Commit(host, defaultBranch, commitInfo, cursor.tree, cursor.commit, submission);
      if r.Failure? {
        error := Some(r.error);
      } else {
        var next := Cursor(r.value.0, r.value.1);
        WroteStep(mid, host.State(), before, commitInfo, start, queue, written, cursor, defaultBranch, next);
        cursor := next;
        written := written + [next];
        error := None;
      }
    }

    /** The identity scan: sign with the author `ResolveCommitInfo` picks, if the branch lists any commit. */
    method Identify(history: seq<ListedCommit>) returns (identified: bool)
      modifies this`commitInfo
      ensures identified <==> history != []
      ensures identified ==> Some(commitInfo) == ChosenIdentity(history)
    {
      var identity := ResolveCommitInfo(history);
      if identity.None? {
        return false;
      }
      commitInfo := identity.value;
      return true;
    }

    /**
     * One run of `sync` over the branch's listed history, the submission list and
     * the host: the identity from the history, the whole paging loop, then the
     * commit loop from the branch's newest commit and its tree.
     */
    method Run(history: seq<ListedCommit>, l: Listing, defaultBranch: string, details: Id -> SubmissionRecord, host: Host)
      returns (r: Result<(), SyncError>, ghost discovered: Outcome, ghost commitError: Option<string>)
      requires Valid() && Discovered() == Start
      requires host.Valid()
      modifies this, acc, host
      ensures host.Valid()
      ensures history == [] ==> r == Failure(NoCommits) && unchanged(host)
      ensures history != [] ==> Some(commitInfo) == ChosenIdentity(history)
      ensures history != [] ==> Ran(host, old(host.State()), history[0], l, defaultBranch, details, r, discovered, commitError)
    {
      var identified := Identify(history);
      if !identified {
        return Failure(NoCommits), Outcome(Start, None), None;
      }
      r, discovered, commitError := Proceed(history[0], l, defaultBranch, details, host);
    }

    /**
     * How a run that found an identity ends: the paging loop's outcome; on its
     * failure the run is rejected before any write; otherwise the commit loop's
     * outcome from the commit `head` and its tree.
     */
    ghost predicate Ran(host: Host, before: Store, head: ListedCommit, l: Listing, defaultBranch: string,
                        details: Id -> SubmissionRecord, r: Result<(), SyncError>, discovered: Outcome, commitError: Option<string>)
      reads this`response, this`offset, this`waits, this`requests, this`commitInfo, this`written, this`cursor, acc, host
    {
      && discovered == DiscoverFrom(l, 0, Start)
      && Discovered() == discovered.progress
      && (discovered.error.Some? ==> r == Failure(DiscoveryFailed(discovered.error.value)) && host.State() == before)
      && (discovered.error.None? ==>
            && Committed(host.State(), before, commitInfo, Cursor(head.tree, head.sha), Queue(acc.submissions, details),
                         written, cursor, defaultBranch, commitError)
            && r == if commitError.Some? then Failure(CommitFailed(commitError.value)) else Success(()))
    }

    /** The run after the identity scan: the paging loop, then the commit loop from `head`. */
    method Proceed(head: ListedCommit, l: Listing, defaultBranch: string, details: Id -> SubmissionRecord, host: Host)
      returns (r: Result<(), SyncError>, ghost discovered: Outcome, ghost commitError: Option<string>)
      requires Valid() && Discovered() == Start
      requires host.Valid()
      modifies this`response, this`offset, this`waits, this`requests, acc, this`cursor, this`written, host
      ensures host.Valid()
      ensures Ran(host, old(host.State()), head, l, defaultBranch, details, r, discovered, commitError)
    {
      ghost var before := host.State();
      var discoveryError := Discover(l);
      discovered := Outcome(Discovered(), discoveryError);
      if discoveryError.Some? {
        r, commitError := Failure(DiscoveryFailed(discoveryError.value)), None;
      } else {
        cursor := Cursor(head.tree, head.sha);
        var error := CommitAll(host, defaultBranch, details, before, cursor);
        commitError := error;
        r := if error.Some? then Failure(CommitFailed(error.value)) else Success(());
      }
    }
  }
}
