/** The parameter parser against the grammar: what it accepts, and exactly which parameters survive a rendering. */
module MessageGrammar {
  import opened Text
  import opened MessageParams

  ghost predicate IsMiddle(m: string) {
    m != "" && m[0] !in NOSPCRLFCL && Free(m, NOSPCRLF)
  }

  ghost predicate IsTrailing(t: string) {
    Free(t, NOCRLF)
  }

  ghost predicate AllMiddles(ms: seq<string>) {
    forall i :: 0 <= i < |ms| ==> IsMiddle(ms[i])
  }

  /** `nospcrlfcl` of section 2.3.1 of RFC 2812, with no upper bound. */
  ghost predicate Nospcrlfcl(c: char) {
    var x := c as int;
    0x01 <= x <= 0x09 || 0x0B <= x <= 0x0C || 0x0E <= x <= 0x1F || 0x21 <= x <= 0x39 || 0x3B <= x
  }

  /** The middles and trailings of this module are those of the grammar. */
  lemma GrammarIff(s: string)
    ensures IsMiddle(s) <==>
              s != "" && Nospcrlfcl(s[0]) && forall i :: 1 <= i < |s| ==> s[i] == ':' || Nospcrlfcl(s[i])
    ensures IsTrailing(s) <==> forall i :: 0 <= i < |s| ==> s[i] == ':' || s[i] == ' ' || Nospcrlfcl(s[i])
  {
  }

  /** Middles as rendered: each after one space. */
  function Join(ms: seq<string>): string {
    if ms == [] then "" else " " + ms[0] + Join(ms[1..])
  }

  /** A space and then a character that may start a middle. */
  ghost predicate StartsMiddle(rest: string) {
    |rest| > 1 && rest[0] == ' ' && rest[1] !in NOSPCRLFCL
  }

  /** `ms` are all the middles of `Join(ms) + rest`, of which the last is the `k`-th. */
  ghost predicate AllTaken(ms: seq<string>, rest: string, k: nat) {
    && AllMiddles(ms)
    && (ms == [] || rest == "" || rest[0] in NOSPCRLF)
    && (k < 14 ==> !StartsMiddle(rest))
  }

  // ----- soundness

  /** One middle is read off the front. */
  lemma NextMiddle(m: string, r: string, n: nat)
    requires IsMiddle(m) && n < 14
    requires r == "" || r[0] in NOSPCRLF
    ensures ParseParams(" " + m + r, n) == Prepend([m], ParseParams(r, n + 1))
  {
    var text := " " + m + r;
    assert text[1..] == m + r && (m + r)[0] == m[0];
    FindFirstOfAt(m, r, NOSPCRLF);
    assert (m + r)[..|m|] == m && text[1 + |m|..] == r;
  }

  lemma MiddleRead(text: string, n: nat)
    requires n < 14 && StartsMiddle(text)
    ensures var m := MiddleOf(text[1..]);
            var r := text[1 + |m|..];
            && IsMiddle(m) && text == " " + m + r && (r == "" || r[0] in NOSPCRLF)
            && ParseParams(text, n) == Prepend([m], ParseParams(r, n + 1))
  {
    assert text == " " + text[1..];
  }

  /**
    On any text at all: at most 14 middles and 15 parameters, every middle and the trailing grammatical, and
    the middles, each after one space, are a prefix of the text, no middle follows them, and the rest alone
    decides the trailing.
   */
  lemma {:induction false} Soundness(text: string, n: nat) returns (rest: string, k: nat)
    requires n <= 14
    ensures k == n + |ParseParams(text, n).middles| <= 14
    ensures var q := ParseParams(text, n);
            && AllTaken(q.middles, rest, k) && IsTrailing(q.trailing)
            && text == Join(q.middles) + rest
            && ParseParams(rest, k) == Parsed([], q.trailing, q.ok)
    decreases 14 - n
  {
    if n < 14 && StartsMiddle(text) {
      var m := MiddleOf(text[1..]);
      MiddleRead(text, n);
      rest, k := Soundness(text[1 + |m|..], n + 1);
      SoundStep(text, m, text[1 + |m|..], ParseParams(text[1 + |m|..], n + 1), rest, k);
    } else {
      rest, k := text, n;
      assert Join([]) + text == text;
      EndSound(text, n);
    }
  }

  lemma SoundStep(text: string, m: string, r: string, q: Parsed, rest: string, k: nat)
    requires IsMiddle(m) && AllTaken(q.middles, rest, k) && IsTrailing(q.trailing)
    requires text == " " + m + r && r == Join(q.middles) + rest && (r == "" || r[0] in NOSPCRLF)
    ensures var p := Prepend([m], q);
            AllTaken(p.middles, rest, k) && IsTrailing(p.trailing) && text == Join(p.middles) + rest
  {
    assert q.middles == [] ==> r == rest;
    JoinOne(m, q.middles, rest);
  }

  lemma EndSound(text: string, n: nat)
    requires n <= 14
    requires n < 14 ==> !StartsMiddle(text)
    ensures var q := ParseParams(text, n); q.middles == [] && IsTrailing(q.trailing)
  {
  }

  lemma JoinOne(m: string, ms: seq<string>, rest: string)
    ensures Join([m] + ms) + rest == " " + m + (Join(ms) + rest)
    ensures IsMiddle(m) && AllMiddles(ms) ==> AllMiddles([m] + ms)
  {
    assert ([m] + ms)[1..] == ms;
    Assoc(" " + m, Join(ms), rest);
  }

  lemma ParamsSound(text: string)
    ensures |Params(text)| <= 15
    ensures forall i :: 0 <= i < |Params(text)| ==> IsTrailing(Params(text)[i])
    ensures forall i :: 0 <= i < |Params(text)| - 1 ==> IsMiddle(Params(text)[i])
  {
    var rest, n := Soundness(text, 0);
    var q := ParseParams(text, 0);
    forall i | 0 <= i < |q.middles| ensures IsTrailing(q.middles[i]) {
      assert IsMiddle(q.middles[i]);
    }
  }

  // ----- rendered middles are read back

  lemma {:induction false} JoinRead(ms: seq<string>, rest: string, text: string, n: nat, k: nat)
    requires AllMiddles(ms) && k == n + |ms| <= 14 && text == Join(ms) + rest
    requires rest == "" || rest[0] in NOSPCRLF
    ensures ParseParams(text, n) == Prepend(ms, ParseParams(rest, k))
    decreases ms
  {
    if ms == [] {
      assert text == rest;
      PrependNone(ParseParams(rest, n));
    } else {
      MiddlesTail(ms);
      JoinRead(ms[1..], rest, Join(ms[1..]) + rest, n + 1, k);
      JoinReadCons(ms, rest, text, ParseParams(rest, k), n);
    }
  }

  lemma JoinReadCons(ms: seq<string>, rest: string, text: string, q: Parsed, n: nat)
    requires ms != [] && AllMiddles(ms) && n < 14 && text == Join(ms) + rest
    requires rest == "" || rest[0] in NOSPCRLF
    requires ParseParams(Join(ms[1..]) + rest, n + 1) == Prepend(ms[1..], q)
    ensures ParseParams(text, n) == Prepend(ms, q)
  {
    MiddlesTail(ms);
    var r := Join(ms[1..]) + rest;
    JoinOne(ms[0], ms[1..], rest);
    assert text == " " + ms[0] + r && ms == [ms[0]] + ms[1..];
    JoinReadStep(ms[0], ms[1..], r, q, n);
  }

  lemma MiddlesTail(ms: seq<string>)
    requires AllMiddles(ms) && ms != []
    ensures IsMiddle(ms[0]) && AllMiddles(ms[1..])
  {
    assert forall i :: 0 <= i < |ms[1..]| ==> ms[1..][i] == ms[i + 1];
  }

  lemma JoinReadStep(m: string, tail: seq<string>, r: string, q: Parsed, n: nat)
    requires IsMiddle(m) && n < 14
    requires r == "" || r[0] in NOSPCRLF
    requires ParseParams(r, n + 1) == Prepend(tail, q)
    ensures ParseParams(" " + m + r, n) == Prepend([m] + tail, q)
  {
    NextMiddle(m, r, n);
    PrependTwice([m], tail, q);
  }

  lemma {:induction false} JoinConcat(ms: seq<string>, ns: seq<string>)
    ensures Join(ms + ns) == Join(ms) + Join(ns)
  {
    if ms == [] {
      assert ms + ns == ns;
    } else {
      JoinConcat(ms[1..], ns);
      TailConcat(ms, ns);
      Assoc(" " + ms[0], Join(ms[1..]), Join(ns));
    }
  }

  // ----- round trips, with their exact conditions

  /** Middles alone: nothing is appended for a trailing that is not there. */
  lemma MiddlesIff(ms: seq<string>)
    requires 1 <= |ms| <= 14
    ensures Params(Join(ms)) == ms <==> AllMiddles(ms)
  {
    if AllMiddles(ms) {
      MiddlesRead(ms);
    }
    if Params(Join(ms)) == ms {
      OnlyMiddlesRead(ms);
    }
  }

  lemma MiddlesRead(ms: seq<string>)
    requires 1 <= |ms| <= 14 && AllMiddles(ms)
    ensures Params(Join(ms)) == ms
  {
    assert Join(ms) + "" == Join(ms);
    JoinRead(ms, "", Join(ms) + "", 0, |ms|);
    assert ms + [] == ms;
  }

  lemma OnlyMiddlesRead(ms: seq<string>)
    requires 1 <= |ms| <= 14 && Params(Join(ms)) == ms
    ensures AllMiddles(ms)
  {
    var q := ParseParams(Join(ms), 0);
    var rest, n := Soundness(Join(ms), 0);
    if q.ok {
      var k := |ms| - 1;
      LastSame(q.middles, q.trailing, ms[k]);
      assert ms == ms[..k] + [ms[k]];
      assert q.middles == (q.middles + [q.trailing])[..k] == ms[..k];
      JoinConcat(ms[..k], [ms[k]]);
      assert Join([ms[k]]) == " " + ms[k];
      LastAsTrailing(ms[..k], ms[k]);
    }
  }

  /** After fewer than 14 middles, a parameter without a colon is never taken for a trailing. */
  lemma LastAsTrailing(ms: seq<string>, x: string)
    requires AllMiddles(ms) && |ms| < 14
    ensures var q := ParseParams(Join(ms) + (" " + x), 0);
            !(q.ok && q.middles == ms && q.trailing == x)
  {
    JoinRead(ms, " " + x, Join(ms) + (" " + x), 0, |ms|);
    assert (" " + x)[1..] == x;
    var q := ParseParams(" " + x, |ms|);
    assert x != "" && x[0] !in NOSPCRLFCL ==> q.middles != [];
  }

  lemma MiddlesBeforeLast(text: string, ms: seq<string>, t: string)
    requires Params(text) == ms + [t]
    ensures AllMiddles(ms)
  {
    ParamsSound(text);
    assert forall i :: 0 <= i < |ms| ==> ms[i] == Params(text)[i];
  }

  lemma LastSame(ms: seq<string>, t: string, u: string)
    ensures ms + [t] == ms + [u] <==> t == u
  {
    assert (ms + [t])[|ms|] == t && (ms + [u])[|ms|] == u;
  }

  lemma TrailingWhole(t: string)
    ensures TrailingOf(t) == t <==> IsTrailing(t)
  {
    assert t[..|t|] == t;
  }

  /** With a trailing after a colon, an empty one included. */
  lemma TrailingIff(ms: seq<string>, t: string)
    requires |ms| <= 14
    ensures Params(Join(ms) + (" :" + t)) == ms + [t] <==> AllMiddles(ms) && IsTrailing(t)
  {
    if Params(Join(ms) + (" :" + t)) == ms + [t] {
      MiddlesBeforeLast(Join(ms) + (" :" + t), ms, t);
    }
    if AllMiddles(ms) {
      ColonRead(ms, t);
      LastSame(ms, TrailingOf(t), t);
      TrailingWhole(t);
    }
  }

  lemma ColonRead(ms: seq<string>, t: string)
    requires AllMiddles(ms) && |ms| <= 14
    ensures Params(Join(ms) + (" :" + t)) == ms + [TrailingOf(t)]
  {
    JoinRead(ms, " :" + t, Join(ms) + (" :" + t), 0, |ms|);
    ColonStarts(t, |ms|);
    assert ms + [] == ms;
  }

  /** A trailing ends before the first NUL, CR or LF, and what follows that is lost. */
  lemma TrailingCut(ms: seq<string>, t: string, c: char, rest: string)
    requires AllMiddles(ms) && |ms| <= 14 && IsTrailing(t) && (c == '\0' || c == '\r' || c == '\n')
    ensures Params(Join(ms) + (" :" + (t + ([c] + rest)))) == ms + [t]
  {
    ColonRead(ms, t + ([c] + rest));
    FindFirstOfAt(t, [c] + rest, NOCRLF);
    assert (t + ([c] + rest))[..|t|] == t;
  }

  lemma ColonStarts(t: string, n: nat)
    requires n <= 14
    ensures ParseParams(" :" + t, n) == Parsed([], TrailingOf(t), true)
  {
    var r := " :" + t;
    assert r[1..] == ":" + t;
    assert r[2..] == t;
    assert AfterColon(":" + t) == t;
  }

  /** After exactly 14 middles the colon is optional, unless the trailing itself starts with one. */
  lemma NoColonIff(ms: seq<string>, t: string)
    requires |ms| == 14
    ensures Params(Join(ms) + (" " + t)) == ms + [t] <==> AllMiddles(ms) && IsTrailing(t) && !(":" <= t)
  {
    if Params(Join(ms) + (" " + t)) == ms + [t] {
      MiddlesBeforeLast(Join(ms) + (" " + t), ms, t);
    }
    if AllMiddles(ms) {
      JoinRead(ms, " " + t, Join(ms) + (" " + t), 0, |ms|);
      assert (" " + t)[1..] == t;
      assert ms + [] == ms;
      LastSame(ms, TrailingOf(AfterColon(t)), t);
      TrailingWhole(t);
    }
  }

  // ----- what is made of a text that the grammar does not allow

  /**
    The middles and then anything that holds no further middle. Nothing is appended exactly when the text ends
    there or stops at a space that starts neither a middle nor a trailing. Where no space follows, an empty
    parameter is appended exactly when something else does, or when the text is empty: that text is lost.
   */
  lemma AppendedIff(ms: seq<string>, rest: string)
    requires |ms| <= 14 && AllTaken(ms, rest, |ms|)
    ensures Params(Join(ms) + rest) == ms <==>
              (rest == "" && ms != []) || (|ms| < 14 && " " <= rest && !(" :" <= rest))
    ensures !(" " <= rest) ==> (Params(Join(ms) + rest) == ms + [""] <==> rest != "" || ms == [])
  {
    if ms == [] {
      assert Join(ms) + rest == rest;
    } else {
      JoinRead(ms, rest, Join(ms) + rest, 0, |ms|);
    }
    RestRead(rest, |ms|);
    var q := ParseParams(rest, |ms|);
    assert ms + [] == ms && |ms + [q.trailing]| == |ms| + 1;
    LastSame(ms, q.trailing, "");
  }

  /** What follows the middles: whether a parameter is appended, and that it is empty when no space follows. */
  lemma RestRead(rest: string, n: nat)
    requires n <= 14 && (n < 14 ==> !StartsMiddle(rest))
    ensures var q := ParseParams(rest, n);
            && q.middles == []
            && (q.ok <==> !(rest == "" && n != 0) && !(n < 14 && " " <= rest && !(" :" <= rest)))
            && (!q.ok || !(" " <= rest) ==> q.trailing == "")
  {
  }

  /** Every text is of that form. */
  lemma AppendedAlways(text: string) returns (ms: seq<string>, rest: string)
    ensures text == Join(ms) + rest && |ms| <= 14 && AllTaken(ms, rest, |ms|)
    ensures Params(text) == ms || exists t :: IsTrailing(t) && Params(text) == ms + [t]
    ensures Params(text) == ms <==> (rest == "" && ms != []) || (|ms| < 14 && " " <= rest && !(" :" <= rest))
    ensures !(" " <= rest) ==> (Params(text) == ms + [""] <==> rest != "" || ms == [])
  {
    var k;
    rest, k := Soundness(text, 0);
    ms := ParseParams(text, 0).middles;
    AppendedIff(ms, rest);
  }

  /** The empty text has one empty parameter; a text that does not start with a space is lost in one. */
  lemma LostTexts()
    ensures Params("") == [""]
    ensures Params("\tx") == [""]
  {
    AppendedIff([], "");
    AppendedIff([], "\tx");
  }

  /** After a middle, what follows a CR is lost in an empty parameter, and a space at the end in none. */
  lemma LostTails()
    ensures Params(" a\rb") == ["a"] + [""]
    ensures Params(" a ") == ["a"]
  {
    var ms := ["a"];
    assert IsMiddle(ms[0]) && ms[1..] == [];
    assert Join(ms) == " a";
    assert " a" + "\rb" == " a\rb" && " a" + " " == " a ";
    AppendedIff(ms, "\rb");
    AppendedIff(ms, " ");
  }

  // ----- any parameters that the grammar allows

  /** A list of parameters and how its last one is written. */
  datatype Style = AsMiddle | AfterSpaceColon | AfterSpace

  /** `params` of the grammar. */
  ghost predicate Grammatical(ps: seq<string>, style: Style) {
    && ps != []
    && AllMiddles(if style.AsMiddle? then ps else ps[..|ps| - 1])
    && match style
       case AsMiddle => |ps| <= 14
       case AfterSpaceColon => |ps| <= 15 && IsTrailing(ps[|ps| - 1])
       case AfterSpace => |ps| == 15 && IsTrailing(ps[14]) && !(":" <= ps[14])
  }

  function Render(ps: seq<string>, style: Style): string
    requires ps != []
  {
    match style
    case AsMiddle => Join(ps)
    case AfterSpaceColon => Join(ps[..|ps| - 1]) + (" :" + ps[|ps| - 1])
    case AfterSpace => Join(ps[..|ps| - 1]) + (" " + ps[|ps| - 1])
  }

  /** Parsing any rendering that the grammar allows gives exactly the parameters rendered. */
  lemma ParamsRoundTrip(ps: seq<string>, style: Style)
    requires Grammatical(ps, style)
    ensures Params(Render(ps, style)) == ps
  {
    var k := |ps| - 1;
    assert ps == ps[..k] + [ps[k]];
    match style
    case AsMiddle => MiddlesIff(ps);
    case AfterSpaceColon => TrailingIff(ps[..k], ps[k]);
    case AfterSpace => NoColonIff(ps[..k], ps[k]);
  }

  /** An empty trailing is a parameter; an absent one is not. */
  lemma EmptyTrailing(ms: seq<string>)
    requires AllMiddles(ms) && 1 <= |ms| <= 14
    ensures Params(Join(ms)) == ms
    ensures Params(Join(ms) + " :") == ms + [""]
  {
    MiddlesIff(ms);
    TrailingIff(ms, "");
    assert " :" + "" == " :";
  }
}
