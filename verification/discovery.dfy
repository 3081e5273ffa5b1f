/**
 * The paging loop of `sync`: fetch the submission list 20 at a time, each page
 * through `getSubmissions`, fold each page into the accumulator, and go on while
 * the response says `has_next`.
 *
 * The remote list is a `Listing`: the page at each page index, and which fetch
 * attempts fail. Past the last page the list answers with an empty page without
 * a next one.
 */
module Discovery {
  import opened Wrappers
  import opened Dedup
  import opened Backoff

  /** The fields of a list response the loop reads. */
  datatype Page = Page(submissions: seq<RawSubmission>, hasNext: bool, lastKey: string)

  /** The exception thrown by the fetch of page `page` made with retry count `retryCount`. */
  datatype FetchError = FetchError(page: nat, retryCount: nat)

  datatype Listing = Listing(pages: seq<Page>, fails: (nat, nat) -> bool)

  /** The query parameters of one page's request (each retry of the page resends them). */
  datatype Request = Request(offset: nat, limit: nat, lastKey: string)

  datatype DiscoveryError = FetchFailed(error: FetchError) | ReferenceError(name: string)

  /** The loop's state: the accumulator, the recorded delays, the requests, `response` and `offset`. */
  datatype Progress = Progress(dict: Dict, submissions: seq<Id>, waits: seq<nat>, requests: seq<Request>,
                               response: Option<Page>, offset: nat)

  datatype Outcome = Outcome(progress: Progress, error: Option<DiscoveryError>)

  const PageSize: nat := 20
  /** The first request fails fast, so that wrong credentials surface at once. */
  const FirstPageRetries: nat := 0
  const LaterPageRetries: nat := 5
  /** Delay before every request after the first, in milliseconds. */
  const PagePause: nat := 1000

  /** `response = null`, `offset = 0`, empty `submissions` and `submissions_dict`. */
  const Start: Progress := Progress(Empty, [], [], [], None, 0)

  function PageAt(l: Listing, p: nat): Page
  {
    if p < |l.pages| then l.pages[p] else Page([], false, "")
  }

  /** What the fetch of page `p` with retry count `k` returns or throws. */
  function Attempts(l: Listing, p: nat): nat -> Result<Page, FetchError>
  {
    (k: nat) => if l.fails(p, k) then Failure(FetchError(p, k)) else Success(PageAt(l, p))
  }

  function MaxRetries(s: Progress): nat
  {
    if s.response.None? then FirstPageRetries else LaterPageRetries
  }

  function Pause(s: Progress): seq<nat>
  {
    if s.response.None? then [] else [PagePause]
  }

  function RequestFor(s: Progress): Request
  {
    Request(s.offset, PageSize, if s.response.None? then "" else s.response.value.lastKey)
  }

  /** Logs one request of the loop: the pause before it, its backoff waits and its query. */
  function Record(s: Progress, f: Retried<Page, FetchError>): Progress
  {
    s.(waits := s.waits + Pause(s) + f.waits, requests := s.requests + [RequestFor(s)])
  }

  /**
   * The loop body after a successful fetch: `addToSubmissions` on the page,
   * then `response` and `offset += 20`.
   */
  function Add(s: Progress, page: Page): (r: Progress)
    requires WellFormed(s.dict)
    ensures WellFormed(r.dict) && r.dict == Absorb(s.dict, page.submissions)
    ensures r.submissions == s.submissions + Flatten(r.dict)
    ensures r.response == Some(page) && r.offset == s.offset + PageSize
    ensures r.waits == s.waits && r.requests == s.requests
  {
    AbsorbWellFormed(s.dict, page.submissions);
    var d := Absorb(s.dict, page.submissions);
    s.(dict := d, submissions := s.submissions + Flatten(d), response := Some(page), offset := s.offset + PageSize)
  }

  /**
   * The loop from page `p` on, repaired: the undeclared `details` is dropped from
   * the argument of `addToSubmissions`, which never reads it, so every fetched
   * page is added. It only ever stops on a fetch that still fails after its
   * retries, or after a page without a next one. This is the specification of
   * `Sync.SyncRun.Discover`.
   */
  function DiscoverFrom(l: Listing, p: nat, s: Progress): (r: Outcome)
    requires WellFormed(s.dict) && p <= |l.pages|
    ensures WellFormed(r.progress.dict)
    ensures s.submissions <= r.progress.submissions && s.requests < r.progress.requests
    ensures r.error.Some? ==> r.error.value.FetchFailed?
    decreases |l.pages| - p
  {
    var f := GetSubmissions(Attempts(l, p), MaxRetries(s), 0);
    var s1 := Record(s, f);
    if f.result.Failure? then Outcome(s1, Some(FetchFailed(f.result.error)))
    else
      var page := f.result.value;
      assert page == PageAt(l, p);
      var s2 := Add(s1, page);
      if page.hasNext then DiscoverFrom(l, p + 1, s2) else Outcome(s2, None)
  }

  /**
   * A run of the loop as written: the call of `addToSubmissions` names `details`,
   * which is declared nowhere, so evaluating its argument throws a ReferenceError
   * as soon as the first page has been fetched. The run never gets past offset 0.
   */
  function DiscoverAsWritten(l: Listing): (r: Outcome)
    ensures r.error.Some?
    ensures r.progress.dict == Empty && r.progress.submissions == [] && r.progress.offset == 0
    ensures r.progress.requests == [Request(0, PageSize, "")]
  {
    var f := GetSubmissions(Attempts(l, 0), FirstPageRetries, 0);
    var s1 := Record(Start, f);
    if f.result.Failure? then Outcome(s1, Some(FetchFailed(f.result.error)))
    else Outcome(s1.(response := Some(f.result.value)), Some(ReferenceError("details")))
  }

  // ----- What a run of the loop does, page by page -----

  /** Retries allowed for page `p` in a run: none for the first page, five after. */
  function RetriesOf(p: nat): nat
  {
    if p == 0 then FirstPageRetries else LaterPageRetries
  }

  function FetchOf(l: Listing, p: nat): Retried<Page, FetchError>
  {
    GetSubmissions(Attempts(l, p), RetriesOf(p), 0)
  }

  function PauseBefore(p: nat): seq<nat>
  {
    if p == 0 then [] else [PagePause]
  }

  /** The delays requested for page `p`: the 1 s pause (after the first page) and the backoff waits. */
  function PageWaits(l: Listing, p: nat): seq<nat>
  {
    PauseBefore(p) + FetchOf(l, p).waits
  }

  function KeyBefore(l: Listing, p: nat): string
  {
    if p == 0 then "" else PageAt(l, p - 1).lastKey
  }

  /** Whether a run at page `p` goes on to the next page: the fetch succeeded and the page has a next one. */
  predicate Continues(l: Listing, p: nat)
  {
    p < |l.pages| && FetchOf(l, p).result.Success? && PageAt(l, p).hasNext
  }

  /** The last page a run from page `p` requests: the first whose fetch failed or that has no next one. */
  function LastPage(l: Listing, p: nat): nat
    decreases |l.pages| - p
  {
    if Continues(l, p) then LastPage(l, p + 1) else p
  }

  /** The queries of the first `n` pages: offsets 0, 20, ..., each with the previous page's `last_key`. */
  function Requests(l: Listing, n: nat): seq<Request>
  {
    seq(n, i requires 0 <= i < n => Request(PageSize * i, PageSize, KeyBefore(l, i)))
  }

  /** The delays requested while fetching the first `n` pages, in order. */
  function WaitsUpTo(l: Listing, n: nat): seq<nat>
  {
    if n == 0 then [] else WaitsUpTo(l, n - 1) + PauseBefore(n - 1) + FetchOf(l, n - 1).waits
  }

  /** All submissions of the first `n` pages, in order. */
  function AllPages(l: Listing, n: nat): seq<RawSubmission>
  {
    if n == 0 then [] else AllPages(l, n - 1) + PageAt(l, n - 1).submissions
  }

  function DictAfter(l: Listing, n: nat): (d: Dict)
    ensures WellFormed(d)
  {
    AbsorbWellFormed(Empty, AllPages(l, n));
    Absorb(Empty, AllPages(l, n))
  }

  /** The ids appended while adding the first `n` pages: one snapshot of the whole dictionary per page. */
  function Snapshots(l: Listing, n: nat): seq<Id>
  {
    if n == 0 then [] else Snapshots(l, n - 1) + Flatten(DictAfter(l, n))
  }

  /** The loop state once the first `n` pages have been fetched and added. */
  function After(l: Listing, n: nat): Progress
  {
    Progress(DictAfter(l, n), Snapshots(l, n), WaitsUpTo(l, n), Requests(l, n),
             if n == 0 then None else Some(PageAt(l, n - 1)), PageSize * n)
  }

  /** How a run whose last request is for page `last` ends. */
  function Ending(l: Listing, last: nat): Outcome
  {
    var f := FetchOf(l, last);
    if f.result.Failure? then Outcome(Record(After(l, last), f), Some(FetchFailed(f.result.error)))
    else Outcome(After(l, last + 1), None)
  }

  /** The loop state at the start of page `p` of a run. */
  ghost predicate AtPage(l: Listing, p: nat, s: Progress)
  {
    && p <= |l.pages|
    && WellFormed(s.dict)
    && s.offset == PageSize * p
    && (if p == 0 then s.response.None? else s.response == Some(PageAt(l, p - 1)))
  }

  /** The fetch made at page `p` is the page's own: its retry budget, its query, its delays. */
  lemma FetchedPage(l: Listing, p: nat, s: Progress)
    requires AtPage(l, p, s)
    ensures GetSubmissions(Attempts(l, p), MaxRetries(s), 0) == FetchOf(l, p)
    ensures FetchOf(l, p).result.Success? ==> FetchOf(l, p).result.value == PageAt(l, p)
    ensures FetchOf(l, p).result.Failure? ==> FetchOf(l, p).result.error == FetchError(p, |FetchOf(l, p).waits|)
    ensures Pause(s) == PauseBefore(p)
    ensures RequestFor(s) == Request(PageSize * p, PageSize, KeyBefore(l, p))
  {
  }

  /** One iteration of the loop at page `p`, in terms of that page's fetch. */
  lemma DiscoverFromStep(l: Listing, p: nat, s: Progress)
    requires AtPage(l, p, s)
    ensures DiscoverFrom(l, p, s) ==
      if FetchOf(l, p).result.Failure? then Outcome(Record(s, FetchOf(l, p)), Some(FetchFailed(FetchOf(l, p).result.error)))
      else if PageAt(l, p).hasNext then DiscoverFrom(l, p + 1, Add(Record(s, FetchOf(l, p)), PageAt(l, p)))
      else Outcome(Add(Record(s, FetchOf(l, p)), PageAt(l, p)), None)
  {
    FetchedPage(l, p, s);
  }

  lemma AfterStart(l: Listing)
    ensures After(l, 0) == Start
  {
  }

  lemma AfterAtPage(l: Listing, p: nat)
    requires p <= |l.pages|
    ensures AtPage(l, p, After(l, p))
  {
  }

  /** Logging the request for page `p` extends the query and delay logs of the first `p` pages to `p + 1`. */
  lemma AfterRecord(l: Listing, p: nat)
    ensures Record(After(l, p), FetchOf(l, p)).requests == Requests(l, p + 1)
    ensures Record(After(l, p), FetchOf(l, p)).waits == WaitsUpTo(l, p + 1)
  {
    RequestsSnoc(l, p);
    var s := After(l, p);
    assert Pause(s) == PauseBefore(p);
    assert RequestFor(s) == Request(PageSize * p, PageSize, KeyBefore(l, p));
  }

  lemma RequestsSnoc(l: Listing, p: nat)
    ensures Requests(l, p + 1) == Requests(l, p) + [Request(PageSize * p, PageSize, KeyBefore(l, p))]
  {
    var a := Requests(l, p + 1);
    var b := Requests(l, p) + [Request(PageSize * p, PageSize, KeyBefore(l, p))];
    assert |a| == |b|;
    forall i | 0 <= i < |a|
      ensures a[i] == b[i]
    {
      if i < p {
        assert b[i] == Requests(l, p)[i];
      }
    }
  }

  /** Fetching and adding page `p` leads from the state after `p` pages to the state after `p + 1`. */
  lemma AfterAdd(l: Listing, p: nat)
    ensures Add(Record(After(l, p), FetchOf(l, p)), PageAt(l, p)) == After(l, p + 1)
  {
    AfterRecord(l, p);
    AbsorbAppend(Empty, AllPages(l, p), PageAt(l, p).submissions);
  }

  /** The loop from page `p`, entered in the state after `p` pages, ends as its last page dictates. */
  lemma {:induction false} DiscoverFromAfter(l: Listing, p: nat)
    requires p <= |l.pages|
    ensures DiscoverFrom(l, p, After(l, p)) == Ending(l, LastPage(l, p))
    decreases |l.pages| - p
  {
    var s := After(l, p);
    var f := FetchOf(l, p);
    AfterAtPage(l, p);
    DiscoverFromStep(l, p, s);
    if f.result.Failure? {
      assert LastPage(l, p) == p;
      assert DiscoverFrom(l, p, s) == Outcome(Record(s, f), Some(FetchFailed(f.result.error)));
    } else if Continues(l, p) {
      AfterAdd(l, p);
      assert DiscoverFrom(l, p, s) == DiscoverFrom(l, p + 1, After(l, p + 1));
      DiscoverFromAfter(l, p + 1);
      assert LastPage(l, p) == LastPage(l, p + 1);
    } else {
      AfterAdd(l, p);
      assert LastPage(l, p) == p;
      assert DiscoverFrom(l, p, s) == Outcome(After(l, p + 1), None);
    }
  }

  /**
   * A run from page `p` ends at or before the page past the listing; every page
   * before its last was fetched and had a next one, and its last page failed or
   * had none.
   */
  lemma {:induction false} LastPageShape(l: Listing, p: nat)
    requires p <= |l.pages|
    ensures p <= LastPage(l, p) <= |l.pages|
    ensures forall i :: p <= i < LastPage(l, p) ==> Continues(l, i)
    ensures !Continues(l, LastPage(l, p))
    decreases |l.pages| - p
  {
    if Continues(l, p) {
      LastPageShape(l, p + 1);
    }
  }

  // ----- Consequences for a whole run -----

  /**
   * A whole run ends at its last page: failed with that page's exception after
   * adding the pages before it, or completed after adding every page.
   */
  lemma DiscoveryOutcome(l: Listing)
    ensures DiscoverFrom(l, 0, Start) == Ending(l, LastPage(l, 0))
  {
    AfterStart(l);
    DiscoverFromAfter(l, 0);
  }

  /** The number of pages a run adds: all it requested, or all but a failed last one. */
  function Folded(l: Listing): nat
  {
    if FetchOf(l, LastPage(l, 0)).result.Failure? then LastPage(l, 0) else LastPage(l, 0) + 1
  }

  /**
   * A run from the start asks for offsets 0, 20, 40, ... in turn, with `lastkey`
   * empty on the first request and the previous response's `last_key` after;
   * every page but the last was fetched and had a next one; and it requests
   * exactly the delays of the pages it asked for.
   */
  lemma DiscoveryPaging(l: Listing)
    ensures var o := DiscoverFrom(l, 0, Start);
      var n := LastPage(l, 0) + 1;
      && 1 <= n <= |l.pages| + 1
      && |o.progress.requests| == n
      && o.progress.requests == Requests(l, n)
      && o.progress.waits == WaitsUpTo(l, n)
      && (forall i :: 0 <= i < n - 1 ==> Continues(l, i))
  {
    var o := DiscoverFrom(l, 0, Start);
    var last := LastPage(l, 0);
    var f := FetchOf(l, last);
    assert o.progress.requests == Requests(l, last + 1) && o.progress.waits == WaitsUpTo(l, last + 1) by {
      DiscoveryOutcome(l);
      AfterRecord(l, last);
      if f.result.Failure? {
        assert o.progress == Record(After(l, last), f);
      } else {
        assert o.progress == After(l, last + 1);
      }
    }
    LastPageShape(l, 0);
  }

  /**
   * A run completes exactly when the fetch of its last page succeeded, and then
   * that page has no next one and the offset moved 20 per page; otherwise it
   * fails with the exception of that page's last fetch, after moving 20 per
   * page before it.
   */
  lemma DiscoveryEnd(l: Listing)
    ensures var o := DiscoverFrom(l, 0, Start);
      var last := LastPage(l, 0);
      && (o.error.None? <==> FetchOf(l, last).result.Success?)
      && (o.error.None? ==> !PageAt(l, last).hasNext && o.progress.offset == PageSize * (last + 1))
      && (o.error.Some? ==> o.error == Some(FetchFailed(FetchError(last, |FetchOf(l, last).waits|)))
                            && o.progress.offset == PageSize * last)
  {
    var last := LastPage(l, 0);
    DiscoveryOutcome(l);
    LastPageShape(l, 0);
    AfterAtPage(l, last);
    FetchedPage(l, last, After(l, last));
  }

  /**
   * A run adds the pages it fetched and no other: the final dictionary is
   * those pages' submissions folded in order, and the ids appended are one
   * snapshot per added page.
   */
  lemma DiscoveryState(l: Listing)
    ensures var o := DiscoverFrom(l, 0, Start);
      && o.progress.dict == Absorb(Empty, AllPages(l, Folded(l)))
      && o.progress.submissions == Snapshots(l, Folded(l))
  {
    var o := DiscoverFrom(l, 0, Start);
    var last := LastPage(l, 0);
    var f := FetchOf(l, last);
    var after := After(l, Folded(l));
    DiscoveryOutcome(l);
    if f.result.Failure? {
      assert Folded(l) == last;
      assert o.progress == Record(after, f);
    } else {
      assert Folded(l) == last + 1;
      assert o.progress == after;
    }
    assert o.progress.dict == after.dict && o.progress.submissions == after.submissions;
  }

  /**
   * Latest wins across the whole run: the final dictionary has a key exactly
   * when some accepted submission of the added pages has it, and holds that
   * key's winner (greatest timestamp, last seen among equals).
   */
  lemma DiscoveryKeepsLatest(l: Listing)
    ensures var o := DiscoverFrom(l, 0, Start);
      var seen := AllPages(l, Folded(l));
      && (forall k :: k in o.progress.dict.entries <==> exists i :: 0 <= i < |seen| && Matches(seen[i], k))
      && (forall k :: k in o.progress.dict.entries ==>
            exists i :: Winner(seen, k, i) && o.progress.dict.entries[k] == EntryOf(seen[i]))
  {
    DiscoveryState(l);
    LatestWins(AllPages(l, Folded(l)));
  }

  /** The first page is fetched once, without retry and without any delay before or after. */
  lemma FirstPageFailsFast(l: Listing)
    requires l.fails(0, 0)
    ensures DiscoverFrom(l, 0, Start) ==
      Outcome(Start.(requests := [Request(0, PageSize, "")]), Some(FetchFailed(FetchError(0, 0))))
  {
    assert FetchOf(l, 0) == Retried(Failure(FetchError(0, 0)), []);
  }

  /** Every later page is preceded by the 1 s pause and then waits at most 5 backoff delays of 3^k s. */
  lemma PageWaitsShape(l: Listing, p: nat)
    ensures p == 0 ==> PageWaits(l, p) == []
    ensures p > 0 ==> && PageWaits(l, p)[0] == PagePause
                      && |PageWaits(l, p)| <= 1 + LaterPageRetries
                      && forall k :: 1 <= k < |PageWaits(l, p)| ==> PageWaits(l, p)[k] == 1000 * Pow(Base, k - 1)
  {
    var f := FetchOf(l, p);
    if p > 0 {
      assert forall k :: 1 <= k < |PageWaits(l, p)| ==> PageWaits(l, p)[k] == f.waits[k - 1];
    }
  }

  /** With no failing fetch the loop completes. */
  lemma NoFailureCompletes(l: Listing)
    requires forall q, k :: !l.fails(q, k)
    ensures DiscoverFrom(l, 0, Start).error.None?
  {
    DiscoveryOutcome(l);
    var last := LastPage(l, 0);
    assert FetchOf(l, last).result == Attempts(l, last)(0);
  }

  /**
   * The loop as written never completes: when the first fetch fails it rethrows,
   * and otherwise the undeclared `details` throws before the first page is added,
   * while the loop with the argument dropped completes on the same listing.
   */
  lemma DetailsReferenceErrorStopsEveryRun(l: Listing)
    ensures DiscoverAsWritten(l).error.Some?
    ensures DiscoverAsWritten(l).progress.submissions == []
    ensures (forall q, k :: !l.fails(q, k)) ==>
              && DiscoverAsWritten(l).error == Some(ReferenceError("details"))
              && DiscoverFrom(l, 0, Start).error.None?
  {
    if forall q, k :: !l.fails(q, k) {
      NoFailureCompletes(l);
      assert FetchOf(l, 0).result == Attempts(l, 0)(0);
    }
  }

  /**
   * The snapshot of the whole dictionary is appended after every page, so ids
   * repeat: an accepted "A" on the first page and an accepted "B" on the second
   * give the id list [a, a, b].
   */
  lemma SnapshotsRepeatAcrossPages(a: RawSubmission, b: RawSubmission)
    requires IsAccepted(a) && IsAccepted(b) && a.title != b.title
    ensures var l := Listing([Page([a], true, "k"), Page([b], false, "")], (q, k) => false);
      DiscoverFrom(l, 0, Start).progress.submissions == [a.id, a.id, b.id]
  {
    var l := Listing([Page([a], true, "k"), Page([b], false, "")], (q, k) => false);
    assert FetchOf(l, 0).result == Success(PageAt(l, 0)) by {
      assert FetchOf(l, 0).result == Attempts(l, 0)(0);
    }
    assert FetchOf(l, 1).result == Success(PageAt(l, 1)) by {
      assert FetchOf(l, 1).result == Attempts(l, 1)(0);
    }
    assert LastPage(l, 1) == 1;
    assert Folded(l) == 2;
    DiscoveryState(l);
    TwoSnapshots(l, a, b);
  }

  lemma TwoSnapshots(l: Listing, a: RawSubmission, b: RawSubmission)
    requires IsAccepted(a) && IsAccepted(b) && a.title != b.title
    requires PageAt(l, 0).submissions == [a] && PageAt(l, 1).submissions == [b]
    ensures Snapshots(l, 2) == [a.id, a.id, b.id]
  {
    FirstSnapshot(l, a);
    SecondSnapshot(l, a, b);
  }

  lemma FirstSnapshot(l: Listing, a: RawSubmission)
    requires IsAccepted(a) && PageAt(l, 0).submissions == [a]
    ensures AllPages(l, 1) == [a]
    ensures Snapshots(l, 1) == [a.id]
  {
    assert AllPages(l, 0) == [] && Snapshots(l, 0) == [];
    FlattenFirst(a);
  }

  lemma SecondSnapshot(l: Listing, a: RawSubmission, b: RawSubmission)
    requires IsAccepted(a) && IsAccepted(b) && a.title != b.title
    requires AllPages(l, 1) == [a] && PageAt(l, 1).submissions == [b]
    requires Snapshots(l, 1) == [a.id]
    ensures Snapshots(l, 2) == [a.id, a.id, b.id]
  {
    assert AllPages(l, 2) == [a] + [b];
    FlattenSecond(a, b);
    assert [a.id] + [a.id, b.id] == [a.id, a.id, b.id];
  }

  /** One accepted submission: one entry, one id. */
  lemma FlattenFirst(a: RawSubmission)
    requires IsAccepted(a)
    ensures WellFormed(Absorb(Empty, [a])) && Flatten(Absorb(Empty, [a])) == [a.id]
  {
    var d := Absorb(Empty, [a]);
    FirstTitle(a);
    AbsorbWellFormed(Empty, [a]);
    KeysOne(a);
    assert OrderedKeys(d) == [KeyOf(a)];
    assert IdsOf([KeyOf(a)], d.entries) == [a.id];
  }

  /** Then one of another title: a second entry, flattened after the first. */
  lemma FlattenSecond(a: RawSubmission, b: RawSubmission)
    requires IsAccepted(a) && IsAccepted(b) && a.title != b.title
    ensures WellFormed(Absorb(Empty, [a] + [b])) && Flatten(Absorb(Empty, [a] + [b])) == [a.id, b.id]
  {
    SecondTitle(a, b);
    TwoTitlesWellFormed(a, b);
    FlattenTwoTitles(a, b);
  }

  /** The dictionary holding one submission for each of two titles. */
  function TwoTitles(a: RawSubmission, b: RawSubmission): Dict
  {
    Dict(map[KeyOf(a) := EntryOf(a), KeyOf(b) := EntryOf(b)], [a.title, b.title],
         map[a.title := [a.lang], b.title := [b.lang]])
  }

  lemma TwoTitlesWellFormed(a: RawSubmission, b: RawSubmission)
    requires a.title != b.title
    ensures WellFormed(TwoTitles(a, b))
  {
  }

  lemma FlattenTwoTitles(a: RawSubmission, b: RawSubmission)
    requires a.title != b.title && WellFormed(TwoTitles(a, b))
    ensures Flatten(TwoTitles(a, b)) == [a.id, b.id]
  {
    var d := TwoTitles(a, b);
    KeysTwo(a, b);
    assert OrderedKeys(d) == [KeyOf(a), KeyOf(b)];
    assert d.entries[KeyOf(a)] == EntryOf(a);
  }

  /**
   * Flattening groups the ids by title, not by time: "X" in one language, then
   * "Y", then "X" in another language flatten to the ids of X, X, Y, whatever
   * their timestamps.
   */
  lemma FlattenGroupsByTitle(a: RawSubmission, b: RawSubmission, c: RawSubmission)
    requires IsAccepted(a) && IsAccepted(b) && IsAccepted(c)
    requires a.title != b.title && c.title == a.title && c.lang != a.lang
    ensures WellFormed(Absorb(Empty, [a, b, c])) && Flatten(Absorb(Empty, [a, b, c])) == [a.id, c.id, b.id]
  {
    GroupedDict(a, b, c);
    GroupedWellFormed(a, b, c);
    FlattenGrouped(a, b, c);
  }

  lemma GroupedDict(a: RawSubmission, b: RawSubmission, c: RawSubmission)
    requires IsAccepted(a) && IsAccepted(b) && IsAccepted(c)
    requires a.title != b.title && c.title == a.title && c.lang != a.lang
    ensures Absorb(Empty, [a, b, c]) == Grouped(a, b, c)
  {
    assert Absorb(Empty, [a, b, c]) == Step(TwoTitles(a, b), c) by {
      SecondTitle(a, b);
      assert [a] + [b] == [a, b] == [a, b, c][..2];
    }
    ThirdLanguage(a, b, c);
  }

  /** A second language of the first title is listed under that title, before the second title's. */
  lemma ThirdLanguage(a: RawSubmission, b: RawSubmission, c: RawSubmission)
    requires IsAccepted(c)
    requires a.title != b.title && c.title == a.title && c.lang != a.lang
    ensures Step(TwoTitles(a, b), c) == Grouped(a, b, c)
  {
    var d2 := TwoTitles(a, b);
    var langs := d2.langs[a.title := [a.lang, c.lang]];
    assert Step(d2, c) == Dict(d2.entries[KeyOf(c) := EntryOf(c)], d2.titles, langs) by {
      StepNewLanguage(d2, c);
      assert d2.langs[a.title] + [c.lang] == [a.lang, c.lang];
    }
    assert langs == Grouped(a, b, c).langs by {
      assert langs.Keys == Grouped(a, b, c).langs.Keys;
    }
  }

  /** Two entries under the title of `a` and `c`, then one under the title of `b`. */
  function Grouped(a: RawSubmission, b: RawSubmission, c: RawSubmission): Dict
  {
    Dict(map[KeyOf(a) := EntryOf(a), KeyOf(b) := EntryOf(b), KeyOf(c) := EntryOf(c)], [a.title, b.title],
         map[a.title := [a.lang, c.lang], b.title := [b.lang]])
  }

  lemma GroupedWellFormed(a: RawSubmission, b: RawSubmission, c: RawSubmission)
    requires a.title != b.title && c.title == a.title && c.lang != a.lang
    ensures WellFormed(Grouped(a, b, c))
  {
  }

  lemma FlattenGrouped(a: RawSubmission, b: RawSubmission, c: RawSubmission)
    requires a.title != b.title && c.title == a.title && c.lang != a.lang && WellFormed(Grouped(a, b, c))
    ensures Flatten(Grouped(a, b, c)) == [a.id, c.id, b.id]
  {
    var d := Grouped(a, b, c);
    KeysGrouped(a, b, c);
    assert OrderedKeys(d) == [KeyOf(a), KeyOf(c), KeyOf(b)];
    assert KeyOf(c) != KeyOf(a) && KeyOf(c) != KeyOf(b);
    assert d.entries[KeyOf(a)] == EntryOf(a);
  }

  lemma KeysGrouped(a: RawSubmission, b: RawSubmission, c: RawSubmission)
    requires a.title != b.title && c.title == a.title
    ensures KeysOf([a.title, b.title], map[a.title := [a.lang, c.lang], b.title := [b.lang]])
         == [KeyOf(a), KeyOf(c), KeyOf(b)]
  {
    var langs := map[a.title := [a.lang, c.lang], b.title := [b.lang]];
    assert [a.title, b.title][..1] == [a.title];
    assert [a.title][..0] == [];
    assert KeysOf([a.title], langs) == [KeyOf(a), KeyOf(c)] by {
      assert TitleKeys(a.title, [a.lang, c.lang]) == [KeyOf(a), KeyOf(c)];
    }
    assert TitleKeys(b.title, [b.lang]) == [KeyOf(b)];
  }

  lemma FirstTitle(a: RawSubmission)
    requires IsAccepted(a)
    ensures Absorb(Empty, [a]) == Dict(map[KeyOf(a) := EntryOf(a)], [a.title], map[a.title := [a.lang]])
  {
    assert [a][..0] == [];
    StepNewTitle(Empty, a);
    assert [] + [a.title] == [a.title];
  }

  lemma SecondTitle(a: RawSubmission, b: RawSubmission)
    requires IsAccepted(a) && IsAccepted(b) && a.title != b.title
    ensures Absorb(Empty, [a] + [b]) == TwoTitles(a, b)
  {
    var d1 := Dict(map[KeyOf(a) := EntryOf(a)], [a.title], map[a.title := [a.lang]]);
    FirstTitle(a);
    AbsorbWellFormed(Empty, [a]);
    AbsorbAppend(Empty, [a], [b]);
    assert [b][..0] == [];
    StepNewTitle(d1, b);
  }

  lemma KeysOne(a: RawSubmission)
    ensures KeysOf([a.title], map[a.title := [a.lang]]) == [KeyOf(a)]
  {
    assert [a.title][..0] == [];
    assert TitleKeys(a.title, [a.lang]) == [KeyOf(a)];
  }

  lemma KeysTwo(a: RawSubmission, b: RawSubmission)
    requires a.title != b.title
    ensures KeysOf([a.title, b.title], map[a.title := [a.lang], b.title := [b.lang]]) == [KeyOf(a), KeyOf(b)]
  {
    var langs := map[a.title := [a.lang], b.title := [b.lang]];
    assert [a.title, b.title][..1] == [a.title];
    assert [a.title][..0] == [];
    assert KeysOf([a.title], langs) == [KeyOf(a)] by {
      assert TitleKeys(a.title, [a.lang]) == [KeyOf(a)];
    }
    assert TitleKeys(b.title, [b.lang]) == [KeyOf(b)];
  }
}
