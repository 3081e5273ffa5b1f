/**
 * The repository host's Git data API as the sync uses it (`git.createTree`,
 * `git.createCommit`, `git.updateRef` with `force: true`). The store is ghost:
 * the sync only ever sees the SHAs these calls return. In the model every call
 * that creates an object gets a SHA the store has not used before, handed out in
 * increasing order, which is how the model tells new objects apart. Git's own
 * trees and commits are content-addressed instead; that is not modelled.
 */
module GitHost {

  datatype Sha = Sha(n: nat)

  /** `commit.author` of a listed commit, as far as the sync reads it. */
  datatype Person = Person(name: string, email: string)

  /** A point in time, in milliseconds since the epoch; its ISO-8601 rendering is not modelled. */
  datatype Instant = EpochMillis(ms: int)

  datatype Signature = Signature(name: string, email: string, date: Instant)

  datatype TreeEntry = TreeEntry(path: string, mode: string, content: string)

  /** A tree made of a base tree plus added or replaced blobs. */
  datatype Tree = Tree(base: Sha, entries: seq<TreeEntry>)

  datatype CommitObject = CommitObject(message: string, tree: Sha, parents: seq<Sha>, author: Signature, committer: Signature)

  /** The store and the refs at one moment, as a value. */
  datatype Store = Store(trees: map<Sha, Tree>, commits: map<Sha, CommitObject>, refs: map<string, Sha>, next: nat)

  class Host {
    ghost var trees: map<Sha, Tree>
    ghost var commits: map<Sha, CommitObject>
    ghost var refs: map<string, Sha>
    var next: nat

    /** Every SHA in the store was handed out before `next`. */
    ghost predicate Valid()
      reads this
    {
      && (forall s :: s in trees ==> s.n < next)
      && (forall s :: s in commits ==> s.n < next)
    }

    ghost function State(): Store
      reads this
    {
      Store(trees, commits, refs, next)
    }

    constructor ()
      ensures Valid() && trees == map[] && commits == map[] && refs == map[]
    {
      trees, commits, refs := map[], map[], map[];
      next := 0;
    }

    method CreateTree(baseTree: Sha, tree: seq<TreeEntry>) returns (sha: Sha)
      requires Valid()
      modifies this
      ensures Valid()
      ensures sha !in old(trees) && sha !in old(commits)
      ensures old(next) <= sha.n < next
      ensures trees == old(trees)[sha := Tree(baseTree, tree)]
      ensures commits == old(commits) && refs == old(refs)
    {
      sha := Sha(next);
      trees := trees[sha := Tree(baseTree, tree)];
      next := next + 1;
    }

    method CreateCommit(message: string, tree: Sha, parents: seq<Sha>, author: Signature, committer: Signature)
      returns (sha: Sha)
      requires Valid()
      modifies this
      ensures Valid()
      ensures sha !in old(trees) && sha !in old(commits)
      ensures old(next) <= sha.n < next
      ensures commits == old(commits)[sha := CommitObject(message, tree, parents, author, committer)]
      ensures trees == old(trees) && refs == old(refs)
    {
      sha := Sha(next);
      commits := commits[sha := CommitObject(message, tree, parents, author, committer)];
      next := next + 1;
    }

    /** A forced ref update: the ref points to `sha` whatever it pointed to before. */
    method ForceUpdateRef(ref: string, sha: Sha)
      requires Valid()
      modifies this
      ensures Valid()
      ensures refs == old(refs)[ref := sha]
      ensures trees == old(trees) && commits == old(commits) && next == old(next)
    {
      refs := refs[ref := sha];
    }
  }
}
