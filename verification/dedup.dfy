/**
 * `addToSubmissions`: the accepted-submission accumulator. A nested dictionary
 * `title -> lang -> {timestamp, id}` keeps the latest accepted submission per
 * (title, lang); after each page its ids are appended, in enumeration order,
 * to the `submissions` array.
 *
 * The dictionary is a value `Dict`: the entries by key, the titles in the order
 * they were first inserted, and per title its languages in the order they were
 * first inserted. Enumerating titles, then languages, is the order in which the
 * nested `for ... in` loops visit the dictionary.
 */
module Dedup {

  type Id = nat

  /** One element of a page's `submissions_dump`. */
  datatype RawSubmission = RawSubmission(id: Id, status: int, title: string, lang: string, timestamp: int)

  datatype Key = Key(title: string, lang: string)

  datatype Entry = Entry(timestamp: int, id: Id)

  datatype Dict = Dict(entries: map<Key, Entry>, titles: seq<string>, langs: map<string, seq<string>>)

  /** LeetCode's status code of an accepted submission. */
  const Accepted: int := 10

  const Empty: Dict := Dict(map[], [], map[])

  predicate IsAccepted(s: RawSubmission) { s.status == Accepted }

  function KeyOf(s: RawSubmission): Key { Key(s.title, s.lang) }

  function EntryOf(s: RawSubmission): Entry { Entry(s.timestamp, s.id) }

  /** `s` is an accepted submission for key `k`. */
  predicate Matches(s: RawSubmission, k: Key) { IsAccepted(s) && KeyOf(s) == k }

  ghost predicate Distinct<T>(s: seq<T>) { forall i, j :: 0 <= i < j < |s| ==> s[i] != s[j] }

  /** The entries and the two insertion orders describe the same nested dictionary. */
  ghost predicate WellFormed(d: Dict)
  {
    && Distinct(d.titles)
    && (forall t :: t in d.langs <==> t in d.titles)
    && (forall t :: t in d.langs ==> Distinct(d.langs[t]))
    && (forall k :: k in d.entries ==> k.title in d.langs && k.lang in d.langs[k.title])
    && (forall t, l :: t in d.langs && l in d.langs[t] ==> Key(t, l) in d.entries)
  }

  /** One iteration of the first loop of `addToSubmissions`. */
  function Step(d: Dict, s: RawSubmission): Dict
  {
    if !IsAccepted(s) then d
    else
      var k := KeyOf(s);
      // submissions_dict[name] = {} when the title is new
      var d1 := if s.title in d.langs then d
                else d.(titles := d.titles + [s.title], langs := d.langs[s.title := []]);
      // submissions_dict[name][lang] = {timestamp, id} when the language is new
      var d2 := if k in d1.entries then d1
                else d1.(langs := d1.langs[s.title := d1.langs[s.title] + [s.lang]],
                         entries := d1.entries[k := EntryOf(s)]);
      // a stored entry with a strictly larger timestamp is kept; otherwise this one replaces it
      if d2.entries[k].timestamp > s.timestamp then d2
      else d2.(entries := d2.entries[k := EntryOf(s)])
  }

  /** The dictionary after the first loop has run over `page`. */
  function Absorb(d: Dict, page: seq<RawSubmission>): Dict
  {
    if page == [] then d else Step(Absorb(d, page[..|page| - 1]), page[|page| - 1])
  }

  lemma StepEntries(d: Dict, s: RawSubmission)
    ensures Step(d, s).entries ==
      if !IsAccepted(s) || (KeyOf(s) in d.entries && d.entries[KeyOf(s)].timestamp > s.timestamp)
      then d.entries
      else d.entries[KeyOf(s) := EntryOf(s)]
  {
  }

  /** An accepted submission of a title not seen yet registers the title, then its language, with this entry. */
  lemma StepNewTitle(d: Dict, s: RawSubmission)
    requires WellFormed(d) && IsAccepted(s) && s.title !in d.langs
    ensures Step(d, s) == Dict(d.entries[KeyOf(s) := EntryOf(s)], d.titles + [s.title], d.langs[s.title := [s.lang]])
  {
    assert KeyOf(s) !in d.entries;
    assert [] + [s.lang] == [s.lang];
  }

  /** An accepted submission in a new language of a known title appends that language to the title's. */
  lemma StepNewLanguage(d: Dict, s: RawSubmission)
    requires IsAccepted(s) && s.title in d.langs && KeyOf(s) !in d.entries
    ensures Step(d, s) == Dict(d.entries[KeyOf(s) := EntryOf(s)], d.titles, d.langs[s.title := d.langs[s.title] + [s.lang]])
  {
  }

  lemma StepWellFormed(d: Dict, s: RawSubmission)
    requires WellFormed(d)
    ensures WellFormed(Step(d, s))
  {
    if IsAccepted(s) {
      var k := KeyOf(s);
      var d1 := if s.title in d.langs then d
                else d.(titles := d.titles + [s.title], langs := d.langs[s.title := []]);
      assert WellFormed(d1);
      if k !in d1.entries {
        assert s.lang !in d1.langs[s.title];
      }
    }
  }

  lemma {:induction false} AbsorbWellFormed(d: Dict, page: seq<RawSubmission>)
    requires WellFormed(d)
    ensures WellFormed(Absorb(d, page))
  {
    if page != [] {
      AbsorbWellFormed(d, page[..|page| - 1]);
      StepWellFormed(Absorb(d, page[..|page| - 1]), page[|page| - 1]);
    }
  }

  /** The dictionary carried across pages holds what one pass over all the pages would. */
  lemma {:induction false} AbsorbAppend(d: Dict, a: seq<RawSubmission>, b: seq<RawSubmission>)
    ensures Absorb(d, a + b) == Absorb(Absorb(d, a), b)
  {
    if b != [] {
      assert (a + b)[..|a + b| - 1] == a + b[..|b| - 1];
      AbsorbAppend(d, a, b[..|b| - 1]);
    } else {
      assert a + b == a;
    }
  }

  /** The accepted submissions of `page`, in order. */
  function AcceptedOnly(page: seq<RawSubmission>): (r: seq<RawSubmission>)
    ensures forall i :: 0 <= i < |r| ==> IsAccepted(r[i])
  {
    if page == [] then []
    else if IsAccepted(page[|page| - 1]) then AcceptedOnly(page[..|page| - 1]) + [page[|page| - 1]]
    else AcceptedOnly(page[..|page| - 1])
  }

  /** Submissions whose status is not 10 have no effect on the dictionary. */
  lemma {:induction false} AbsorbIgnoresRejected(d: Dict, page: seq<RawSubmission>)
    ensures Absorb(d, page) == Absorb(d, AcceptedOnly(page))
  {
    if page != [] {
      var init := page[..|page| - 1];
      var last := page[|page| - 1];
      AbsorbIgnoresRejected(d, init);
      if IsAccepted(last) {
        var r := AcceptedOnly(init) + [last];
        assert r[..|r| - 1] == AcceptedOnly(init);
      }
    }
  }

  /**
   * Submission `i` of `seen` is the one kept for `k`: it is accepted, no accepted
   * submission for `k` has a later timestamp, and every accepted submission for
   * `k` seen after it has a strictly earlier one (so among equal timestamps the
   * last one seen wins).
   */
  ghost predicate Winner(seen: seq<RawSubmission>, k: Key, i: int)
  {
    && 0 <= i < |seen| && Matches(seen[i], k)
    && (forall j :: 0 <= j < |seen| && Matches(seen[j], k) ==> seen[j].timestamp <= seen[i].timestamp)
    && (forall j :: i < j < |seen| && Matches(seen[j], k) ==> seen[j].timestamp < seen[i].timestamp)
  }

  /**
   * Latest wins: starting from the empty dictionary, a key is present exactly when
   * some accepted submission has it, and its entry is that of the winner.
   */
  lemma LatestWins(seen: seq<RawSubmission>)
    ensures forall k :: k in Absorb(Empty, seen).entries <==> exists i :: 0 <= i < |seen| && Matches(seen[i], k)
    ensures forall k :: k in Absorb(Empty, seen).entries ==>
              exists i :: Winner(seen, k, i) && Absorb(Empty, seen).entries[k] == EntryOf(seen[i])
  {
    KeptIffSeen(seen);
    forall k | k in Absorb(Empty, seen).entries
      ensures exists i :: Winner(seen, k, i) && Absorb(Empty, seen).entries[k] == EntryOf(seen[i])
    {
      KeptIsWinner(seen, k);
    }
  }

  lemma {:induction false} KeptIffSeen(seen: seq<RawSubmission>)
    ensures forall k :: k in Absorb(Empty, seen).entries <==> exists i :: 0 <= i < |seen| && Matches(seen[i], k)
  {
    if seen != [] {
      var n := |seen| - 1;
      var prev := seen[..n];
      var s := seen[n];
      var d := Absorb(Empty, prev);
      var d' := Absorb(Empty, seen);
      assert prev + [s] == seen;
      KeptIffSeen(prev);
      StepEntries(d, s);
      forall k
        ensures k in d'.entries <==> exists i :: 0 <= i < |seen| && Matches(seen[i], k)
      {
        if k in d.entries {
          var i :| 0 <= i < |prev| && Matches(prev[i], k);
          assert Matches(seen[i], k);
        }
        if Matches(s, k) {
          assert Matches(seen[n], k);
        }
        if exists i :: 0 <= i < |seen| && Matches(seen[i], k) {
          var i :| 0 <= i < |seen| && Matches(seen[i], k);
          if i < n {
            assert Matches(prev[i], k);
          }
        }
      }
    }
  }

  /** The entry kept for `k` is that of the winner among the submissions seen for `k`. */
  lemma {:induction false} KeptIsWinner(seen: seq<RawSubmission>, k: Key)
    requires k in Absorb(Empty, seen).entries
    ensures exists i :: Winner(seen, k, i) && Absorb(Empty, seen).entries[k] == EntryOf(seen[i])
  {
    var n := |seen| - 1;
    var prev := seen[..n];
    var s := seen[n];
    var d := Absorb(Empty, prev);
    StepEntries(d, s);
    assert forall j :: 0 <= j < n ==> seen[j] == prev[j];
    if Matches(s, k) && !(k in d.entries && d.entries[k].timestamp > s.timestamp) {
      if k in d.entries {
        KeptIsWinner(prev, k);
        var i :| Winner(prev, k, i) && d.entries[k] == EntryOf(prev[i]);
      } else {
        KeptIffSeen(prev);
      }
      assert Winner(seen, k, n);
    } else {
      KeptIsWinner(prev, k);
      var i :| Winner(prev, k, i) && d.entries[k] == EntryOf(prev[i]);
      assert Winner(seen, k, i);
    }
  }

  /** The example of a dedup: of two accepted "Two Sum" solutions in Python, the later one is kept. */
  lemma LatestWinsExample()
    ensures var seen := [RawSubmission(1, 10, "Two Sum", "python", 100), RawSubmission(2, 10, "Two Sum", "python", 200)];
            Absorb(Empty, seen).entries == map[Key("Two Sum", "python") := Entry(200, 2)]
  {
    var seen := [RawSubmission(1, 10, "Two Sum", "python", 100), RawSubmission(2, 10, "Two Sum", "python", 200)];
    assert seen[..1] == [seen[0]];
    assert seen[..1][..0] == [];
  }

  // ----- Flattening: the nested `for ... in` loops -----

  function TitleKeys(t: string, ls: seq<string>): seq<Key>
  {
    seq(|ls|, i requires 0 <= i < |ls| => Key(t, ls[i]))
  }

  /** The keys in enumeration order: titles in insertion order, each title's languages in insertion order. */
  function KeysOf(titles: seq<string>, langs: map<string, seq<string>>): seq<Key>
    requires forall t :: t in titles ==> t in langs
  {
    if titles == [] then []
    else
      var t := titles[|titles| - 1];
      KeysOf(titles[..|titles| - 1], langs) + TitleKeys(t, langs[t])
  }

  lemma {:induction false} KeysOfMembers(titles: seq<string>, langs: map<string, seq<string>>)
    requires forall t :: t in titles ==> t in langs
    ensures forall k :: k in KeysOf(titles, langs) <==> k.title in titles && k.lang in langs[k.title]
  {
    if titles != [] {
      var init := titles[..|titles| - 1];
      var t := titles[|titles| - 1];
      assert titles == init + [t];
      KeysOfMembers(init, langs);
      forall k ensures k in TitleKeys(t, langs[t]) <==> k.title == t && k.lang in langs[t] {
        if k.title == t && k.lang in langs[t] {
          var i :| 0 <= i < |langs[t]| && langs[t][i] == k.lang;
          assert TitleKeys(t, langs[t])[i] == k;
        }
      }
    }
  }

  lemma {:induction false} KeysOfDistinct(titles: seq<string>, langs: map<string, seq<string>>)
    requires forall t :: t in titles ==> t in langs
    requires Distinct(titles)
    requires forall t :: t in titles ==> Distinct(langs[t])
    ensures Distinct(KeysOf(titles, langs))
  {
    if titles != [] {
      var init := titles[..|titles| - 1];
      var t := titles[|titles| - 1];
      assert titles == init + [t];
      assert t !in init;
      KeysOfDistinct(init, langs);
      KeysOfMembers(init, langs);
      var a := KeysOf(init, langs);
      var b := TitleKeys(t, langs[t]);
      assert forall i :: 0 <= i < |a| ==> a[i].title != t;
      assert Distinct(b);
      forall i, j | 0 <= i < j < |a + b| ensures (a + b)[i] != (a + b)[j] {
        if j < |a| {
        } else if i < |a| {
          assert (a + b)[i] == a[i] && (a + b)[j] == b[j - |a|];
        }
      }
    }
  }

  lemma {:induction false} DistinctCard<T>(s: seq<T>)
    requires Distinct(s)
    ensures |set x | x in s| == |s|
  {
    if s != [] {
      var init := s[..|s| - 1];
      var x := s[|s| - 1];
      DistinctCard(init);
      assert (set y | y in s) == (set y | y in init) + {x};
      assert x !in (set y | y in init);
    }
  }

  /** The dictionary's keys in the order the nested loops enumerate them. */
  function OrderedKeys(d: Dict): (ks: seq<Key>)
    requires WellFormed(d)
    ensures Distinct(ks)
    ensures forall k :: k in ks <==> k in d.entries
  {
    KeysOfMembers(d.titles, d.langs);
    KeysOfDistinct(d.titles, d.langs);
    KeysOf(d.titles, d.langs)
  }

  function IdsOf(ks: seq<Key>, entries: map<Key, Entry>): seq<Id>
    requires forall k :: k in ks ==> k in entries
  {
    seq(|ks|, i requires 0 <= i < |ks| => entries[ks[i]].id)
  }

  lemma IdsOfSnoc(ks: seq<Key>, k: Key, entries: map<Key, Entry>)
    requires forall k' :: k' in ks ==> k' in entries
    requires k in entries
    ensures IdsOf(ks + [k], entries) == IdsOf(ks, entries) + [entries[k].id]
  {
  }

  /** The ids the nested loops push: one per (title, lang) entry, in enumeration order. */
  function Flatten(d: Dict): seq<Id>
    requires WellFormed(d)
  {
    IdsOf(OrderedKeys(d), d.entries)
  }

  /** The keys of the first `t + 1` titles are those of the first `t`, then the languages of title `t`. */
  lemma KeysOfPrefix(titles: seq<string>, langs: map<string, seq<string>>, t: nat)
    requires forall x :: x in titles ==> x in langs
    requires t < |titles|
    ensures KeysOf(titles[..t + 1], langs) == KeysOf(titles[..t], langs) + TitleKeys(titles[t], langs[titles[t]])
  {
    assert titles[..t + 1][..t] == titles[..t];
  }

  lemma IdsOfAppend(a: seq<Key>, b: seq<Key>, entries: map<Key, Entry>)
    requires forall k :: k in a ==> k in entries
    requires forall k :: k in b ==> k in entries
    ensures IdsOf(a + b, entries) == IdsOf(a, entries) + IdsOf(b, entries)
  {
  }

  lemma {:induction false} PrefixKeysKept(d: Dict, t: nat)
    requires WellFormed(d) && t <= |d.titles|
    ensures forall k :: k in KeysOf(d.titles[..t], d.langs) ==> k in d.entries
  {
    KeysOfMembers(d.titles[..t], d.langs);
  }

  /** The ids the nested loops have pushed after the first `t` titles. */
  function FlattenPrefix(d: Dict, t: nat): seq<Id>
    requires WellFormed(d) && t <= |d.titles|
  {
    PrefixKeysKept(d, t);
    IdsOf(KeysOf(d.titles[..t], d.langs), d.entries)
  }

  /** Title `t` adds the ids of its languages, in insertion order. */
  lemma FlattenPrefixStep(d: Dict, t: nat)
    requires WellFormed(d) && t < |d.titles|
    ensures FlattenPrefix(d, t + 1) == FlattenPrefix(d, t) + IdsOf(TitleKeys(d.titles[t], d.langs[d.titles[t]]), d.entries)
  {
    KeysOfPrefix(d.titles, d.langs, t);
    PrefixKeysKept(d, t);
    KeysOfMembers(d.titles, d.langs);
    IdsOfAppend(KeysOf(d.titles[..t], d.langs), TitleKeys(d.titles[t], d.langs[d.titles[t]]), d.entries);
  }

  /** After the last title, the nested loops have pushed the whole flattening. */
  lemma FlattenPrefixAll(d: Dict)
    requires WellFormed(d)
    ensures FlattenPrefix(d, |d.titles|) == Flatten(d)
  {
    assert d.titles[..|d.titles|] == d.titles;
  }

  /** Flattening appends exactly one id per (title, lang) entry of the dictionary. */
  lemma FlattenOnePerKey(d: Dict)
    requires WellFormed(d)
    ensures |Flatten(d)| == |d.entries|
    ensures forall k :: k in d.entries ==>
              exists i :: 0 <= i < |Flatten(d)| && OrderedKeys(d)[i] == k && Flatten(d)[i] == d.entries[k].id
  {
    var ks := OrderedKeys(d);
    DistinctCard(ks);
    assert (set x | x in ks) == d.entries.Keys;
    forall k | k in d.entries
      ensures exists i :: 0 <= i < |Flatten(d)| && ks[i] == k && Flatten(d)[i] == d.entries[k].id
    {
      var i :| 0 <= i < |ks| && ks[i] == k;
      assert Flatten(d)[i] == d.entries[k].id;
    }
  }

  /** The state `addToSubmissions` mutates: `submissions_dict` and `submissions`. */
  class Accumulator {
    var entries: map<Key, Entry>
    var titles: seq<string>
    var langs: map<string, seq<string>>
    var submissions: seq<Id>

    ghost function Current(): Dict
      reads this`entries, this`titles, this`langs
    {
      Dict(entries, titles, langs)
    }

    ghost predicate Valid()
      reads this`entries, this`titles, this`langs
    {
      WellFormed(Current())
    }

    constructor ()
      ensures Valid() && Current() == Empty && submissions == []
    {
      entries, titles, langs := map[], [], map[];
      submissions := [];
    }

    /**
     * Folds the page into the dictionary, then appends a snapshot of all of the
     * dictionary's ids. Always answers true, so the caller's `break` never fires.
     */
    method AddToSubmissions(page: seq<RawSubmission>) returns (more: bool)
      requires Valid()
      modifies this
      ensures Valid()
      ensures Current() == Absorb(old(Current()), page)
      ensures submissions == old(submissions) + Flatten(Current())
      ensures more
    {
      AbsorbPage(page);
      PushSnapshot();
      more := true;
    }

    /** The first loop of `addToSubmissions`: fold the page into the dictionary. */
    method AbsorbPage(page: seq<RawSubmission>)
      requires Valid()
      modifies this`entries, this`titles, this`langs
      ensures Valid()
      ensures Current() == Absorb(old(Current()), page)
    {
      var i := 0;
      while i < |page|
        invariant 0 <= i <= |page|
        invariant Valid()
        invariant Current() == Absorb(old(Current()), page[..i])
      {
        assert page[..i + 1][..i] == page[..i];
        Put(page[i]);
        i := i + 1;
      }
      assert page[..|page|] == page;
    }

    /** One iteration of the first loop; skipping the rest of the body stands for its `continue`. */
    method Put(submission: RawSubmission)
      requires Valid()
      modifies this`entries, this`titles, this`langs
      ensures Valid()
      ensures Current() == Step(old(Current()), submission)
    {
      ghost var before := Current();
      if submission.status == Accepted {  // otherwise: not accepted
        var name, lang, timestamp := submission.title, submission.lang, submission.timestamp;
        var key := Key(name, lang);
        if name !in langs {
          titles := titles + [name];
          langs := langs[name := []];
        }
        if key !in entries {
          langs := langs[name := langs[name] + [lang]];
          entries := entries[key := Entry(timestamp, submission.id)];
        }
        if !(entries[key].timestamp > timestamp) {  // otherwise: ignore older solutions
          entries := entries[key := Entry(timestamp, submission.id)];
        }
      }
      assert Current() == Step(before, submission);
      StepWellFormed(before, submission);
    }

    /** The nested `for ... in` loops of `addToSubmissions`: push every id of the dictionary. */
    method PushSnapshot()
      requires Valid()
      modifies this`submissions
      ensures submissions == old(submissions) + Flatten(Current())
    {
      ghost var d := Current();
      var ts, byTitle, kept := titles, langs, entries;
      var t := 0;
      while t < |ts|
        invariant 0 <= t <= |ts|
        invariant submissions == old(submissions) + FlattenPrefix(d, t)
      {
        var name := ts[t];
        PushTitle(name, byTitle[name], kept);
        FlattenPrefixStep(d, t);
        t := t + 1;
      }
      FlattenPrefixAll(d);
    }

    /** The inner loop: push the id of each language of one title, in insertion order. */
    method PushTitle(name: string, ls: seq<string>, kept: map<Key, Entry>)
      requires forall l :: l in ls ==> Key(name, l) in kept
      modifies this`submissions
      ensures forall k :: k in TitleKeys(name, ls) ==> k in kept
      ensures submissions == old(submissions) + IdsOf(TitleKeys(name, ls), kept)
    {
      var l := 0;
      while l < |ls|
        invariant 0 <= l <= |ls|
        invariant forall k :: k in TitleKeys(name, ls[..l]) ==> k in kept
        invariant submissions == old(submissions) + IdsOf(TitleKeys(name, ls[..l]), kept)
      {
        var key := Key(name, ls[l]);
        assert TitleKeys(name, ls[..l + 1]) == TitleKeys(name, ls[..l]) + [key];
        IdsOfSnoc(TitleKeys(name, ls[..l]), key, kept);
        submissions := submissions + [kept[key].id];
        l := l + 1;
      }
      assert ls[..|ls|] == ls;
    }
  }
}
