/**
 * The pure string-building parts of `commit`: the language-to-extension table,
 * the guard that rejects an unknown language, the file path of a solution and
 * the commit message.
 */
module Languages {
  import opened Wrappers

  /** Prefix of every commit message the sync writes; the checkpoint scan looks for it. */
  const CommitMessage: string := "[Add LeetCode submission]"

  /** File extension per LeetCode language tag. */
  const LangToExtension: map<string, string> := map[
    "bash" := "sh",
    "c" := "c",
    "cpp" := "cpp",
    "csharp" := "cs",
    "dart" := "dart",
    "golang" := "go",
    "java" := "java",
    "javascript" := "js",
    "kotlin" := "kt",
    "mssql" := "sql",
    "mysql" := "sql",
    "oraclesql" := "sql",
    "php" := "php",
    "python" := "py",
    "python3" := "py",
    "ruby" := "rb",
    "rust" := "rs",
    "scala" := "scala",
    "swift" := "swift",
    "typescript" := "ts"
  ]

  /**
   * The guard of `commit`: the lookup fails when the table value is missing or
   * falsy (the empty string). Because no value in the table is empty, the guard
   * rejects exactly the languages the table does not list.
   */
  function Extension(lang: string): (r: Option<string>)
    ensures r.Some? <==> lang in LangToExtension
    ensures r.Some? ==> r.value == LangToExtension[lang] && r.value != ""
  {
    if lang in LangToExtension && LangToExtension[lang] != "" then Some(LangToExtension[lang]) else None
  }

  /** The text `commit` throws for a language without an extension. */
  function UnsupportedLanguage(lang: string): string
  {
    "Language " + lang + " does not have a registered extension."
  }

  /** Commit message for one solution: the marker, then the title and the language. */
  function CommitMessageFor(title: string, lang: string): (m: string)
    ensures CommitMessage <= m
    ensures m[|CommitMessage|..] == " - " + title + " (" + lang + ")"
  {
    CommitMessage + " - " + title + " (" + lang + ")"
  }

  // ----- Decimal rendering of a numeric submission id (JavaScript's String(n) for n >= 0) -----

  predicate IsDigit(c: char) { '0' <= c <= '9' }

  predicate AllDigits(s: string) { forall i :: 0 <= i < |s| ==> IsDigit(s[i]) }

  function DigitChar(d: nat): (c: char)
    requires d < 10
    ensures IsDigit(c) && c as int - '0' as int == d
  {
    (d + '0' as int) as char
  }

  /** The decimal digits of `n`, most significant first, with no leading zero. */
  function Decimal(n: nat): (s: string)
    ensures |s| >= 1 && AllDigits(s)
    ensures s[0] == '0' ==> n == 0
    decreases n
  {
    if n < 10 then [DigitChar(n)] else Decimal(n / 10) + [DigitChar(n % 10)]
  }

  /** Reads a string of decimal digits back as a number. */
  function ParseDecimal(s: string): nat
    requires AllDigits(s)
  {
    if s == [] then 0 else ParseDecimal(s[..|s| - 1]) * 10 + (s[|s| - 1] as int - '0' as int)
  }

  lemma {:induction false} DecimalRoundTrip(n: nat)
    ensures ParseDecimal(Decimal(n)) == n
    decreases n
  {
    if n >= 10 {
      var s := Decimal(n);
      assert s[..|s| - 1] == Decimal(n / 10);
      DecimalRoundTrip(n / 10);
    }
  }

  // ----- Solution path -----

  /** Path of the single file a solution is committed to: `<title>/solution_<id>.<ext>`. */
  function SolutionPath(title: string, id: nat, ext: string): string
  {
    title + "/solution_" + Decimal(id) + "." + ext
  }

  /** Position of the first `c` in `s`, or `|s|` when there is none. */
  function IndexOf(s: string, c: char): (r: nat)
    ensures r <= |s|
    ensures r < |s| ==> s[r] == c
    ensures forall i :: 0 <= i < r ==> s[i] != c
  {
    if s == [] then 0 else if s[0] == c then 0 else 1 + IndexOf(s[1..], c)
  }

  /** Splits `s` around its first `c`. */
  function SplitAt(s: string, c: char): Option<(string, string)>
  {
    var k := IndexOf(s, c);
    if k == |s| then None else Some((s[..k], s[k + 1..]))
  }

  /** Splits a solution path back into title, id and extension. */
  function ParsePath(path: string): Option<(string, nat, string)>
  {
    match SplitAt(path, '/')
    case None => None
    case Some((title, file)) =>
      if !("solution_" <= file) then None
      else
        match SplitAt(file[9..], '.')
        case None => None
        case Some((digits, ext)) =>
          if digits == [] || !AllDigits(digits) then None
          else Some((title, ParseDecimal(digits), ext))
  }

  /** The first `c` in `a + [c] + b` is the one after `a` when `a` holds none. */
  lemma {:induction false} SplitAtFirst(a: string, c: char, b: string)
    requires forall i :: 0 <= i < |a| ==> a[i] != c
    ensures SplitAt(a + [c] + b, c) == Some((a, b))
  {
    var s := a + [c] + b;
    assert s[|a|] == c;
    assert forall i :: 0 <= i < |a| ==> s[i] == a[i];
    assert IndexOf(s, c) == |a|;
    assert s[..|a|] == a && s[|a| + 1..] == b;
  }

  /**
   * A solution path determines the title, the id and the extension it was built
   * from (for titles without a slash), so two distinct submissions are never
   * written to the same file.
   */
  lemma SolutionPathRoundTrip(title: string, id: nat, ext: string)
    requires forall i :: 0 <= i < |title| ==> title[i] != '/'
    ensures ParsePath(SolutionPath(title, id, ext)) == Some((title, id, ext))
  {
    var digits := Decimal(id);
    var file := "solution_" + digits + "." + ext;
    assert SolutionPath(title, id, ext) == title + ['/'] + file;
    SplitAtFirst(title, '/', file);
    assert file[9..] == digits + ['.'] + ext;
    SplitAtFirst(digits, '.', ext);
    DecimalRoundTrip(id);
  }

  lemma SolutionPathInjective(t1: string, id1: nat, e1: string, t2: string, id2: nat, e2: string)
    requires forall i :: 0 <= i < |t1| ==> t1[i] != '/'
    requires forall i :: 0 <= i < |t2| ==> t2[i] != '/'
    requires SolutionPath(t1, id1, e1) == SolutionPath(t2, id2, e2)
    ensures t1 == t2 && id1 == id2 && e1 == e2
  {
    SolutionPathRoundTrip(t1, id1, e1);
    SolutionPathRoundTrip(t2, id2, e2);
  }
}
