/**
 * The author-identity checkpoint: which name and email the sync signs its
 * commits with, recovered from the branch's recent history.
 */
module Checkpoint {
  import opened Wrappers
  import opened Languages
  import opened GitHost

  /** One element of the listed commits, newest first. */
  datatype ListedCommit = ListedCommit(sha: Sha, tree: Sha, message: string, author: Person)

  /** A commit written by the sync: its message starts with the marker. */
  predicate IsMarker(c: ListedCommit)
  {
    CommitMessage <= c.message
  }

  /** The author of the first marker commit in `history`, or `fallback` when there is none. */
  function FirstMarkerOr(history: seq<ListedCommit>, fallback: Person): Person
  {
    if history == [] then fallback
    else if IsMarker(history[0]) then history[0].author
    else FirstMarkerOr(history[1..], fallback)
  }

  /**
   * The identity a run signs with: the author of the newest marker commit, or else
   * the author of the oldest listed commit. With no commit listed there is none
   * (the code then fails reading a property of `undefined`).
   */
  function ChosenIdentity(history: seq<ListedCommit>): Option<Person>
  {
    if history == [] then None else Some(FirstMarkerOr(history, history[|history| - 1].author))
  }

  /** Without a marker commit the scan falls through to the fallback. */
  lemma {:induction false} FirstMarkerOrNone(history: seq<ListedCommit>, fallback: Person)
    requires forall i :: 0 <= i < |history| ==> !IsMarker(history[i])
    ensures FirstMarkerOr(history, fallback) == fallback
  {
    if history != [] {
      assert !IsMarker(history[0]);
      FirstMarkerOrNone(history[1..], fallback);
    }
  }

  /** The scan stops at the first marker commit, `history[i]`. */
  lemma {:induction false} FirstMarkerOrAt(history: seq<ListedCommit>, fallback: Person, i: nat)
    requires i < |history| && IsMarker(history[i])
    requires forall j :: 0 <= j < i ==> !IsMarker(history[j])
    ensures FirstMarkerOr(history, fallback) == history[i].author
  {
    if i > 0 {
      assert !IsMarker(history[0]);
      FirstMarkerOrAt(history[1..], fallback, i - 1);
    }
  }

  /** The two cases together: the first marker commit's author, else the fallback. */
  lemma FirstMarkerOrIsFirstMarker(history: seq<ListedCommit>, fallback: Person)
    ensures (forall i :: 0 <= i < |history| ==> !IsMarker(history[i])) ==> FirstMarkerOr(history, fallback) == fallback
    ensures forall i :: 0 <= i < |history| && IsMarker(history[i]) && (forall j :: 0 <= j < i ==> !IsMarker(history[j])) ==>
              FirstMarkerOr(history, fallback) == history[i].author
  {
    if forall i :: 0 <= i < |history| ==> !IsMarker(history[i]) {
      FirstMarkerOrNone(history, fallback);
    }
    forall i | 0 <= i < |history| && IsMarker(history[i]) && (forall j :: 0 <= j < i ==> !IsMarker(history[j]))
      ensures FirstMarkerOr(history, fallback) == history[i].author
    {
      FirstMarkerOrAt(history, fallback, i);
    }
  }

  /** The scan over the listed commits, newest first, stopping at the first marker commit. */
  method ResolveCommitInfo(history: seq<ListedCommit>) returns (commitInfo: Option<Person>)
    ensures commitInfo == ChosenIdentity(history)
    ensures commitInfo.None? <==> history == []
    ensures forall i :: 0 <= i < |history| && IsMarker(history[i]) && (forall j :: 0 <= j < i ==> !IsMarker(history[j])) ==>
              commitInfo == Some(history[i].author)
    ensures history != [] && (forall i :: 0 <= i < |history| ==> !IsMarker(history[i])) ==>
              commitInfo == Some(history[|history| - 1].author)
  {
    if |history| == 0 {
      return None;
    }
    FirstMarkerOrIsFirstMarker(history, history[|history| - 1].author);
    var info := history[|history| - 1].author;
    var i := 0;
    while i < |history|
      invariant 0 <= i <= |history|
      invariant forall j :: 0 <= j < i ==> !IsMarker(history[j])
      invariant info == history[|history| - 1].author
    {
      if !IsMarker(history[i]) {
        i := i + 1;
        continue;
      }
      info := history[i].author;
      break;
    }
    return Some(info);
  }

  /**
   * Identity is stable across runs: once the newest listed commit is one the sync
   * wrote (its message is built by `CommitMessageFor`), the next run signs with
   * that commit's author.
   */
  lemma NewestOwnCommitFixesIdentity(history: seq<ListedCommit>, title: string, lang: string)
    requires history != [] && history[0].message == CommitMessageFor(title, lang)
    ensures ChosenIdentity(history) == Some(history[0].author)
  {
  }

  /**
   * A single marker commit among unrelated ones decides the identity, whatever the
   * branch tip's author is.
   */
  lemma SingleMarkerWins(history: seq<ListedCommit>, m: nat)
    requires m < |history| && IsMarker(history[m])
    requires forall i :: 0 <= i < |history| && i != m ==> !IsMarker(history[i])
    ensures ChosenIdentity(history) == Some(history[m].author)
  {
    FirstMarkerOrIsFirstMarker(history, history[|history| - 1].author);
  }
}
