/**
 * `commit`: write one solution as one new tree and one new commit on top of the
 * current (tree, commit) cursor, move the branch to it, and return the new cursor.
 */
module CommitBuilder {
  import opened Wrappers
  import opened Languages
  import opened GitHost

  /** The fields of a submission that `commit` reads. */
  datatype SubmissionRecord = SubmissionRecord(id: nat, title: string, lang: string, timestamp: int, code: string)

  /** Git mode of a regular, non-executable file. */
  const FileMode: string := "100644"

  function BranchRef(defaultBranch: string): string
  {
    "heads/" + defaultBranch
  }

  /** Author and committer date: the submission time, in milliseconds. */
  function AuthorDate(timestamp: int): Instant
  {
    EpochMillis(timestamp * 1000)
  }

  /** The tree `commit` asks for: the cursor's tree plus the one solution file. */
  function SolutionTree(baseTree: Sha, s: SubmissionRecord, ext: string): Tree
  {
    Tree(baseTree, [TreeEntry(SolutionPath(s.title, s.id, ext), FileMode, s.code)])
  }

  /** The commit `commit` asks for, signed by `commitInfo` at the submission's time. */
  function SolutionCommit(s: SubmissionRecord, commitInfo: Person, tree: Sha, parent: Sha): CommitObject
  {
    var signature := Signature(commitInfo.name, commitInfo.email, AuthorDate(s.timestamp));
    CommitObject(CommitMessageFor(s.title, s.lang), tree, [parent], signature, signature)
  }

  /**
   * Author and committer are the same person with the same date, the commit has
   * the cursor's commit as its only parent, and its message carries the marker.
   */
  lemma SolutionCommitShape(s: SubmissionRecord, commitInfo: Person, tree: Sha, parent: Sha)
    ensures var c := SolutionCommit(s, commitInfo, tree, parent);
      && c.author == c.committer
      && c.author.name == commitInfo.name && c.author.email == commitInfo.email
      && c.author.date.ms == s.timestamp * 1000
      && c.parents == [parent] && c.tree == tree
      && CommitMessage <= c.message
  {
  }

  /**
   * Rejects an unknown language before any call to the host; otherwise creates the
   * tree, then the commit, then force-moves the branch, and returns the new
   * (tree, commit) pair.
   */
  method Commit(host: Host, defaultBranch: string, commitInfo: Person, treeSha: Sha, latestCommitSha: Sha,
                submission: SubmissionRecord)
    returns (r: Result<(Sha, Sha), string>)
    requires host.Valid()
    modifies host
    ensures host.Valid()
    ensures r.Failure? <==> Extension(submission.lang).None?
    ensures r.Failure? ==> r.error == UnsupportedLanguage(submission.lang) && unchanged(host)
    ensures r.Success? ==>
      var (newTree, newCommit) := r.value;
      var ext := Extension(submission.lang).value;
      && newTree !in old(host.trees) && newTree !in old(host.commits)
      && newCommit !in old(host.trees) && newCommit !in old(host.commits)
      && old(host.next) <= newTree.n < newCommit.n < host.next
      && host.trees == old(host.trees)[newTree := SolutionTree(treeSha, submission, ext)]
      && host.commits == old(host.commits)[newCommit := SolutionCommit(submission, commitInfo, newTree, latestCommitSha)]
      && host.refs == old(host.refs)[BranchRef(defaultBranch) := newCommit]
  {
    var ext := Extension(submission.lang);
    if ext.None? {
      return Failure(UnsupportedLanguage(submission.lang));
    }
    var path := SolutionPath(submission.title, submission.id, ext.value);
    var treeData := [TreeEntry(path, FileMode, submission.code)];
    var newTree := host.CreateTree(treeSha, treeData);
    var date := AuthorDate(submission.timestamp);
    var signature := Signature(commitInfo.name, commitInfo.email, date);
    var newCommit := host.CreateCommit(CommitMessageFor(submission.title, submission.lang), newTree,
                                       [latestCommitSha], signature, signature);
    host.ForceUpdateRef(BranchRef(defaultBranch), newCommit);
    return Success((newTree, newCommit));
  }
}
