/**
 * The commit phase of `sync`, as values: which submissions are written in which
 * order, and what the host's store and the branch hold once a prefix of them has
 * been written one commit at a time.
 */
module Replay {
  import opened Wrappers
  import opened Languages
  import opened GitHost
  import opened CommitBuilder
  import Dedup

  /** `treeSHA` and `latestCommitSHA`: the tree and commit the next solution is written on. */
  datatype Cursor = Cursor(tree: Sha, commit: Sha)

  /**
   * The records the commit loop writes, in order: the collected ids walked from
   * the last to the first, each looked up with `details`.
   */
  function Queue(ids: seq<Dedup.Id>, details: Dedup.Id -> SubmissionRecord): (q: seq<SubmissionRecord>)
    ensures |q| == |ids|
  {
    if ids == [] then [] else [details(ids[|ids| - 1])] + Queue(ids[..|ids| - 1], details)
  }

  /** The collected ids are written last-collected first. */
  lemma {:induction false} QueueReversed(ids: seq<Dedup.Id>, details: Dedup.Id -> SubmissionRecord)
    ensures forall j :: 0 <= j < |ids| ==> Queue(ids, details)[j] == details(ids[|ids| - 1 - j])
    decreases |ids|
  {
    if ids != [] {
      QueueReversed(ids[..|ids| - 1], details);
    }
  }

  /** Ids collected from a later page are written before those collected from an earlier one. */
  lemma {:induction false} QueueOfConcat(a: seq<Dedup.Id>, b: seq<Dedup.Id>, details: Dedup.Id -> SubmissionRecord)
    ensures Queue(a + b, details) == Queue(b, details) + Queue(a, details)
    decreases |b|
  {
    if b == [] {
      assert a + b == a;
    } else {
      var b' := b[..|b| - 1];
      assert (a + b)[..|a + b| - 1] == a + b';
      QueueOfConcat(a, b', details);
    }
  }

  /** The cursor before the `j`-th write: the starting one, then the pair the previous write returned. */
  function Prev(start: Cursor, written: seq<Cursor>, j: nat): Cursor
    requires j <= |written|
  {
    if j == 0 then start else written[j - 1]
  }

  /** The first `n` queued records all have a known language. */
  predicate Supported(queue: seq<SubmissionRecord>, n: nat)
  {
    n <= |queue| && forall j :: 0 <= j < n ==> Extension(queue[j].lang).Some?
  }

  lemma SupportedStep(queue: seq<SubmissionRecord>, n: nat)
    requires Supported(queue, n) && n < |queue| && Extension(queue[n].lang).Some?
    ensures Supported(queue, n + 1)
  {
  }

  /**
   * The trees of the store after the queued records have been written on the
   * SHAs `written`: each write adds the solution's file on the previous tree.
   */
  function TreesAfter(trees: map<Sha, Tree>, start: Cursor, queue: seq<SubmissionRecord>, written: seq<Cursor>): map<Sha, Tree>
    requires Supported(queue, |written|)
    decreases |written|
  {
    if written == [] then trees
    else
      var n := |written| - 1;
      TreesAfter(trees, start, queue, written[..n])[written[n].tree :=
        SolutionTree(Prev(start, written, n).tree, queue[n], Extension(queue[n].lang).value)]
  }

  /** The commits of the store after the writes: each on the previous commit, signed by `who`. */
  function CommitsAfter(commits: map<Sha, CommitObject>, who: Person, start: Cursor, queue: seq<SubmissionRecord>,
                        written: seq<Cursor>): map<Sha, CommitObject>
    requires Supported(queue, |written|)
    decreases |written|
  {
    if written == [] then commits
    else
      var n := |written| - 1;
      CommitsAfter(commits, who, start, queue, written[..n])[written[n].commit :=
        SolutionCommit(queue[n], who, written[n].tree, Prev(start, written, n).commit)]
  }

  /** The refs after the writes: the branch points at the last new commit, if any. */
  function RefsAfter(refs: map<string, Sha>, defaultBranch: string, written: seq<Cursor>): map<string, Sha>
  {
    if written == [] then refs else refs[BranchRef(defaultBranch) := written[|written| - 1].commit]
  }

  /** The new SHAs lie in `[low, high)`, each tree before its commit, each write after the previous ones. */
  ghost predicate Increasing(low: nat, high: nat, written: seq<Cursor>)
  {
    && (forall j :: 0 <= j < |written| ==> low <= written[j].tree.n < written[j].commit.n < high)
    && (forall i, j :: 0 <= i < j < |written| ==> written[i].commit.n < written[j].tree.n)
  }

  /** One more write, with SHAs above all earlier ones, keeps the SHAs increasing. */
  lemma IncreasingStep(written: seq<Cursor>, low: nat, high: nat, next: Cursor, high': nat)
    requires Increasing(low, high, written)
    requires low <= high <= next.tree.n < next.commit.n < high'
    ensures Increasing(low, high', written + [next])
  {
  }

  /** One more write adds its tree to the store. */
  lemma TreesStep(trees: map<Sha, Tree>, start: Cursor, queue: seq<SubmissionRecord>, written: seq<Cursor>, next: Cursor)
    requires Supported(queue, |written| + 1)
    ensures TreesAfter(trees, start, queue, written + [next])
         == TreesAfter(trees, start, queue, written)[next.tree :=
              SolutionTree(Prev(start, written, |written|).tree, queue[|written|], Extension(queue[|written|].lang).value)]
  {
    assert (written + [next])[..|written|] == written;
  }

  /** One more write adds its commit to the store. */
  lemma CommitsStep(commits: map<Sha, CommitObject>, who: Person, start: Cursor, queue: seq<SubmissionRecord>,
                    written: seq<Cursor>, next: Cursor)
    requires Supported(queue, |written| + 1)
    ensures CommitsAfter(commits, who, start, queue, written + [next])
         == CommitsAfter(commits, who, start, queue, written)[next.commit :=
              SolutionCommit(queue[|written|], who, next.tree, Prev(start, written, |written|).commit)]
  {
    assert (written + [next])[..|written|] == written;
  }

  /** Moving the branch again overrides where the previous write had moved it. */
  lemma RefsStep(refs: map<string, Sha>, defaultBranch: string, written: seq<Cursor>, next: Cursor)
    ensures RefsAfter(refs, defaultBranch, written + [next]) == RefsAfter(refs, defaultBranch, written)[BranchRef(defaultBranch) := next.commit]
  {
    if written != [] {
      var k := BranchRef(defaultBranch);
      var before := refs[k := written[|written| - 1].commit];
      assert before[k := next.commit] == refs[k := next.commit];
    }
  }

  /** The trees that were in the store before the writes are untouched. */
  lemma {:induction false} TreesKept(trees: map<Sha, Tree>, start: Cursor, queue: seq<SubmissionRecord>,
                                     written: seq<Cursor>, low: nat, high: nat, sha: Sha)
    requires Supported(queue, |written|) && Increasing(low, high, written)
    requires sha in trees && sha.n < low
    ensures var t := TreesAfter(trees, start, queue, written); sha in t && t[sha] == trees[sha]
    decreases |written|
  {
    if written != [] {
      var n := |written| - 1;
      assert Increasing(low, high, written[..n]);
      TreesKept(trees, start, queue, written[..n], low, high, sha);
    }
  }

  /** The commits that were in the store before the writes are untouched. */
  lemma {:induction false} CommitsKept(commits: map<Sha, CommitObject>, who: Person, start: Cursor, queue: seq<SubmissionRecord>,
                                       written: seq<Cursor>, low: nat, high: nat, sha: Sha)
    requires Supported(queue, |written|) && Increasing(low, high, written)
    requires sha in commits && sha.n < low
    ensures var c := CommitsAfter(commits, who, start, queue, written); sha in c && c[sha] == commits[sha]
    decreases |written|
  {
    if written != [] {
      var n := |written| - 1;
      assert Increasing(low, high, written[..n]);
      CommitsKept(commits, who, start, queue, written[..n], low, high, sha);
    }
  }

  /** The `j`-th write's tree is in the store: the solution's file on the tree before it. */
  lemma {:induction false} TreeAt(trees: map<Sha, Tree>, start: Cursor, queue: seq<SubmissionRecord>,
                                  written: seq<Cursor>, low: nat, high: nat, j: nat)
    requires Supported(queue, |written|) && Increasing(low, high, written)
    requires j < |written|
    ensures var t := TreesAfter(trees, start, queue, written);
      written[j].tree in t
      && t[written[j].tree] == SolutionTree(Prev(start, written, j).tree, queue[j], Extension(queue[j].lang).value)
    decreases |written|
  {
    var n := |written| - 1;
    var w := written[..n];
    var t := TreesAfter(trees, start, queue, written);
    assert t == TreesAfter(trees, start, queue, w)[written[n].tree :=
      SolutionTree(Prev(start, written, n).tree, queue[n], Extension(queue[n].lang).value)];
    if j < n {
      assert Increasing(low, high, w);
      TreeAt(trees, start, queue, w, low, high, j);
      assert Prev(start, written, j) == Prev(start, w, j);
      assert written[j].tree != written[n].tree by {
        assert written[j].tree.n < written[j].commit.n < written[n].tree.n;
      }
    }
  }

  /** The `j`-th write's commit is in the store: the solution's commit on the commit before it. */
  lemma {:induction false} CommitAt(commits: map<Sha, CommitObject>, who: Person, start: Cursor, queue: seq<SubmissionRecord>,
                                    written: seq<Cursor>, low: nat, high: nat, j: nat)
    requires Supported(queue, |written|) && Increasing(low, high, written)
    requires j < |written|
    ensures var c := CommitsAfter(commits, who, start, queue, written);
      written[j].commit in c
      && c[written[j].commit] == SolutionCommit(queue[j], who, written[j].tree, Prev(start, written, j).commit)
    decreases |written|
  {
    var n := |written| - 1;
    var w := written[..n];
    var c := CommitsAfter(commits, who, start, queue, written);
    assert c == CommitsAfter(commits, who, start, queue, w)[written[n].commit :=
      SolutionCommit(queue[n], who, written[n].tree, Prev(start, written, n).commit)];
    if j < n {
      assert Increasing(low, high, w);
      CommitAt(commits, who, start, queue, w, low, high, j);
      assert Prev(start, written, j) == Prev(start, w, j);
      assert written[j].commit != written[n].commit by {
        assert written[j].commit.n < written[n].tree.n;
      }
    }
  }

  /**
   * The store, the refs and the cursor once the first `|written|` queued records
   * have been written, in order, on the SHAs `written`, from store `before` and
   * cursor `start`.
   */
  ghost predicate Wrote(after: Store, before: Store, who: Person, start: Cursor, queue: seq<SubmissionRecord>,
                        written: seq<Cursor>, cursor: Cursor, defaultBranch: string)
  {
    && Supported(queue, |written|)
    && before.next <= after.next
    && Increasing(before.next, after.next, written)
    && after.trees == TreesAfter(before.trees, start, queue, written)
    && after.commits == CommitsAfter(before.commits, who, start, queue, written)
    && after.refs == RefsAfter(before.refs, defaultBranch, written)
    && cursor == Prev(start, written, |written|)
  }

  /**
   * One more `commit` of the next queued record on the cursor, with SHAs fresh
   * above everything written so far, extends the writes by its (tree, commit) pair.
   */
  lemma WroteStep(mid: Store, after: Store, before: Store, who: Person, start: Cursor, queue: seq<SubmissionRecord>,
                  written: seq<Cursor>, cursor: Cursor, defaultBranch: string, next: Cursor)
    requires Wrote(mid, before, who, start, queue, written, cursor, defaultBranch)
    requires |written| < |queue| && Extension(queue[|written|].lang).Some?
    requires mid.next <= next.tree.n < next.commit.n < after.next
    requires after.trees == mid.trees[next.tree := SolutionTree(cursor.tree, queue[|written|], Extension(queue[|written|].lang).value)]
    requires after.commits == mid.commits[next.commit := SolutionCommit(queue[|written|], who, next.tree, cursor.commit)]
    requires after.refs == mid.refs[BranchRef(defaultBranch) := next.commit]
    ensures Wrote(after, before, who, start, queue, written + [next], next, defaultBranch)
  {
    SupportedStep(queue, |written|);
    IncreasingStep(written, before.next, mid.next, next, after.next);
    TreesStep(before.trees, start, queue, written, next);
    CommitsStep(before.commits, who, start, queue, written, next);
    RefsStep(before.refs, defaultBranch, written, next);
  }

  /**
   * What the commit loop leaves behind: the writes so far, and the loop stopped
   * either after all queued records or at the first with an unknown language,
   * with that error.
   */
  ghost predicate Committed(after: Store, before: Store, who: Person, start: Cursor, queue: seq<SubmissionRecord>,
                            written: seq<Cursor>, cursor: Cursor, defaultBranch: string, error: Option<string>)
  {
    && Wrote(after, before, who, start, queue, written, cursor, defaultBranch)
    && (error.None? <==> |written| == |queue|)
    && (error.Some? ==> Extension(queue[|written|].lang).None? && error.value == UnsupportedLanguage(queue[|written|].lang))
  }

  /**
   * The commit loop as written hands `commit` the whole detail response, whose top
   * level has no `lang` (the query asks for `lang { name verboseName }`, nested in
   * the response's data). JavaScript reads the missing field as `undefined`, which
   * the guard looks up, and the error message prints, as the text "undefined".
   * Whatever else the records hold, the loop therefore stops at its first record
   * with the guard's error and writes nothing.
   */
  lemma RawResponseWritesNothing(after: Store, before: Store, who: Person, start: Cursor, ids: seq<Dedup.Id>,
                                 details: Dedup.Id -> SubmissionRecord, written: seq<Cursor>, cursor: Cursor,
                                 defaultBranch: string, error: Option<string>)
    requires forall id :: details(id).lang == "undefined"
    requires ids != []
    requires Committed(after, before, who, start, Queue(ids, details), written, cursor, defaultBranch, error)
    ensures written == [] && cursor == start
    ensures error == Some(UnsupportedLanguage("undefined"))
    ensures after.trees == before.trees && after.commits == before.commits && after.refs == before.refs
  {
    var queue := Queue(ids, details);
    QueueReversed(ids, details);
    assert queue[0].lang == "undefined";
    assert Extension(queue[0].lang).None? by {
      assert "undefined" !in LangToExtension;
    }
    assert written == [];
  }

  /** Following first parents from commit `sha` for `steps` commits, where the store allows it. */
  function Ancestor(commits: map<Sha, CommitObject>, sha: Sha, steps: nat): Option<Sha>
    decreases steps
  {
    if steps == 0 then Some(sha)
    else if sha in commits && |commits[sha].parents| == 1 then Ancestor(commits, commits[sha].parents[0], steps - 1)
    else None
  }

  /**
   * The history stays linear: going back `k` parents from the commit of the
   * `m`-th cursor reaches the cursor `k` writes earlier.
   */
  lemma {:induction false} ReplayedIsLinear(commits: map<Sha, CommitObject>, who: Person, start: Cursor,
                                            queue: seq<SubmissionRecord>, written: seq<Cursor>, low: nat, high: nat, m: nat, k: nat)
    requires Supported(queue, |written|) && Increasing(low, high, written)
    requires k <= m <= |written|
    ensures Ancestor(CommitsAfter(commits, who, start, queue, written), Prev(start, written, m).commit, k)
            == Some(Prev(start, written, m - k).commit)
    decreases k
  {
    if k > 0 {
      var c := CommitsAfter(commits, who, start, queue, written);
      CommitAt(commits, who, start, queue, written, low, high, m - 1);
      SolutionCommitShape(queue[m - 1], who, written[m - 1].tree, Prev(start, written, m - 1).commit);
      assert c[written[m - 1].commit].parents == [Prev(start, written, m - 1).commit];
      ReplayedIsLinear(commits, who, start, queue, written, low, high, m - 1, k - 1);
    }
  }

  /** From the last new commit, one parent per write leads back to the commit the run started on. */
  lemma DescendsFromStart(commits: map<Sha, CommitObject>, who: Person, start: Cursor,
                          queue: seq<SubmissionRecord>, written: seq<Cursor>, low: nat, high: nat)
    requires Supported(queue, |written|) && Increasing(low, high, written)
    ensures Ancestor(CommitsAfter(commits, who, start, queue, written), Prev(start, written, |written|).commit, |written|)
            == Some(start.commit)
  {
    ReplayedIsLinear(commits, who, start, queue, written, low, high, |written|, |written|);
  }
}
