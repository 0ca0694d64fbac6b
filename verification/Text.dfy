/** Character classes and searches on strings, in the manner of `std::string::find_first_of`. */
module Text {

  datatype Option<+T> = None | Some(value: T) {
    function GetOr(dflt: T): T {
      if Some? then value else dflt
    }
  }

  // A key and its value.
  type Pair = (string, string)

  const NUL: char := '\0'

  // What `std::isspace` accepts in the "C" locale: space, and tab, LF, VT, FF and CR.
  const WHITESPACE: set<char> := set c: char | c == ' ' || '\t' <= c <= '\r'

  lemma WhitespaceIff(c: char)
    ensures c in WHITESPACE <==> c as int in {9, 10, 11, 12, 13, 32}
  {
  }

  /** The least index holding a character of `cs`, or the length when there is none. */
  function FindFirstOf(s: string, cs: set<char>): (n: nat)
    ensures n <= |s|
    ensures n < |s| ==> s[n] in cs
    ensures forall i :: 0 <= i < n ==> s[i] !in cs
  {
    FindFrom(s, cs, 0)
  }

  function FindFrom(s: string, cs: set<char>, i: nat): (n: nat)
    requires i <= |s|
    ensures i <= n <= |s|
    ensures n < |s| ==> s[n] in cs
    ensures forall j :: i <= j < n ==> s[j] !in cs
    decreases |s| - i
  {
    if i == |s| || s[i] in cs then i else FindFrom(s, cs, i + 1)
  }

  /** The least index holding a character outside `cs`, or the length when there is none. */
  function FindFirstNotOf(s: string, cs: set<char>): (n: nat)
    ensures n <= |s|
    ensures n < |s| ==> s[n] !in cs
    ensures forall i :: 0 <= i < n ==> s[i] in cs
  {
    FindNotFrom(s, cs, 0)
  }

  function FindNotFrom(s: string, cs: set<char>, i: nat): (n: nat)
    requires i <= |s|
    ensures i <= n <= |s|
    ensures n < |s| ==> s[n] !in cs
    ensures forall j :: i <= j < n ==> s[j] in cs
    decreases |s| - i
  {
    if i == |s| || s[i] !in cs then i else FindNotFrom(s, cs, i + 1)
  }

  /** `r` without the white space at its front. */
  function SkipSpace(r: string): (s: string)
    ensures |s| <= |r|
  {
    r[FindFirstNotOf(r, WHITESPACE)..]
  }

  /** True when no character of `s` is in `cs`. */
  ghost predicate Free(s: string, cs: set<char>) {
    forall i :: 0 <= i < |s| ==> s[i] !in cs
  }

  /** A text free of `cs`, followed by nothing or by a character of `cs`, is exactly what a search skips. */
  lemma FindFirstOfAt(s: string, t: string, cs: set<char>)
    requires Free(s, cs)
    requires t == "" || t[0] in cs
    ensures FindFirstOf(s + t, cs) == |s|
  {
    assert forall i :: 0 <= i < |s| ==> (s + t)[i] == s[i];
    assert t != "" ==> (s + t)[|s|] == t[0];
  }

  lemma FindFirstNotOfAt(s: string, t: string, cs: set<char>)
    requires forall i :: 0 <= i < |s| ==> s[i] in cs
    requires t == "" || t[0] !in cs
    ensures FindFirstNotOf(s + t, cs) == |s|
  {
    assert forall i :: 0 <= i < |s| ==> (s + t)[i] == s[i];
    assert t != "" ==> (s + t)[|s|] == t[0];
  }

  lemma FreeConcat(s: string, t: string, cs: set<char>)
    ensures Free(s + t, cs) <==> Free(s, cs) && Free(t, cs)
  {
    if Free(s + t, cs) {
      forall i | 0 <= i < |s| ensures s[i] !in cs { assert (s + t)[i] == s[i]; }
      forall i | 0 <= i < |t| ensures t[i] !in cs { assert (s + t)[|s| + i] == t[i]; }
    }
  }

  lemma TailConcat<T>(s: seq<T>, t: seq<T>)
    requires s != []
    ensures (s + t)[1..] == s[1..] + t && (s + t)[0] == s[0]
  {
  }

  /** Moving one element from what is still to be read to what has been read. */
  lemma MoveOne<T>(done: seq<T>, todo: seq<T>)
    requires todo != []
    ensures (done + [todo[0]]) + todo[1..] == done + todo
  {
  }

  lemma Assoc<T>(a: seq<T>, b: seq<T>, c: seq<T>)
    ensures a + (b + c) == (a + b) + c
  {
  }
}
