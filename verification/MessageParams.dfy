/**
  The parameters of an IRC message: the parser of the source, stream flags and all, and the grammar of
  section 2.3.1 of RFC 2812 that it implements.

      params   =  *14( SPACE middle ) [ SPACE ":" trailing ]
               =/ 14( SPACE middle ) [ SPACE [ ":" ] trailing ]
 */
module MessageParams {
  import opened Text
  import opened CharStreams

  // Characters that end a middle, that cannot start one, and that end a trailing.
  const NOSPCRLF: set<char> := set c: char | c == NUL || c == ' ' || c == '\r' || c == '\n'
  const NOSPCRLFCL: set<char> := set c: char | c == NUL || c == ' ' || c == '\r' || c == '\n' || c == ':'
  const NOCRLF: set<char> := set c: char | c == NUL || c == '\r' || c == '\n'

  // ----- the parser

  /** Middles, trailing, and whether the stream was left without failbit. */
  datatype Parsed = Parsed(middles: seq<string>, trailing: string, ok: bool)

  function Prepend(ms: seq<string>, q: Parsed): Parsed {
    q.(middles := ms + q.middles)
  }

  lemma PrependNone(q: Parsed)
    ensures Prepend([], q) == q
  {
    assert [] + q.middles == q.middles;
  }

  lemma PrependTwice(a: seq<string>, b: seq<string>, q: Parsed)
    ensures Prepend(a, Prepend(b, q)) == Prepend(a + b, q)
  {
    Assoc(a, b, q.middles);
  }

  function MiddleOf(r: string): string {
    r[..FindFirstOf(r, NOSPCRLF)]
  }

  function TrailingOf(r: string): string {
    r[..FindFirstOf(r, NOCRLF)]
  }

  function AfterColon(r: string): string {
    if r != "" && r[0] == ':' then r[1..] else r
  }

  /** What `getparams` makes of the text `r` once it has read `n` middles. */
  function ParseParams(r: string, n: nat): Parsed
    requires n <= 14
    decreases 14 - n
  {
    if n == 14 then
      if r != "" && r[0] == ' ' then Parsed([], TrailingOf(AfterColon(r[1..])), true) else Parsed([], "", r != "")
    else if r == "" then Parsed([], "", n == 0)
    else if r[0] != ' ' then Parsed([], "", true)
    else if r[1..] == "" then Parsed([], "", false)
    else if r[1] == ':' then Parsed([], TrailingOf(r[2..]), true)
    else if r[1] in NOSPCRLFCL then Parsed([], "", false)
    else
      var m := MiddleOf(r[1..]);
      Prepend([m], ParseParams(r[1 + |m|..], n + 1))
  }

  lemma MiddleStep(r: string, n: nat)
    requires n < 14 && |r| > 1 && r[0] == ' ' && r[1] !in NOSPCRLFCL
    ensures var m := MiddleOf(r[1..]);
            ParseParams(r, n) == Prepend([m], ParseParams(r[1..][|m|..], n + 1))
  {
    assert r[1..][|MiddleOf(r[1..])|..] == r[1 + |MiddleOf(r[1..])|..];
  }

  /** `get_params`: the trailing is a parameter like the others when the stream has not failed. */
  function Params(text: string): seq<string> {
    var q := ParseParams(text, 0);
    if q.ok then q.middles + [q.trailing] else q.middles
  }

  /** `gettrailing` */
  method GetTrailing(src: CharStream) returns (trailing: string)
    requires src.Valid() && !src.failbit && (src.eofbit ==> src.Rest() == "")
    modifies src`pos, src`eofbit, src`failbit
    ensures src.Valid() && src.Good()
    ensures trailing == TrailingOf(old(src.Rest()))
  {
    ghost var r := src.Rest();
    trailing := "";
    while !src.failbit
      invariant src.Valid()
      invariant src.failbit ==> src.eofbit
      invariant src.eofbit ==> src.Rest() == ""
      invariant r == trailing + src.Rest() && Free(trailing, NOCRLF)
      decreases |src.Rest()|, if src.failbit then 0 else 1
    {
      var p := src.Peek();
      if p.Some? && p.value in NOCRLF {
        FindFirstOfAt(trailing, src.Rest(), NOCRLF);
        return;
      }
      ghost var before := src.Rest();
      var c := src.Get();
      if c.Some? {
        MoveOne(trailing, before);
        trailing := trailing + [c.value];
      }
    }
    FindFirstOfAt(trailing, "", NOCRLF);
    if src.eofbit {
      src.Clear();
    }
  }

  /** `getmiddle` */
  method GetMiddle(src: CharStream, middle0: string) returns (middle: string)
    requires src.Valid() && !src.failbit && (src.eofbit ==> src.Rest() == "")
    modifies src`pos, src`eofbit, src`failbit
    ensures src.Valid()
    ensures var r := old(src.Rest());
            if r == "" || r[0] in NOSPCRLFCL then src.failbit
            else
              && middle == MiddleOf(r) && middle != "" && src.Rest() == r[|middle|..]
              && !src.failbit && (src.eofbit <==> src.Rest() == "")
  {
    ghost var r := src.Rest();
    middle := middle0;
    var p := src.Peek();
    if p.Some? && p.value in NOSPCRLFCL {
      src.SetFail();
      return;
    }
    var first := src.Get();
    if first == None {
      return;
    }
    middle := [first.value];
    while true
      invariant src.Valid() && src.Good()
      invariant r == middle + src.Rest() && Free(middle, NOSPCRLF) && middle != ""
      decreases |src.Rest()|
    {
      p := src.Peek();
      if p == None || p.value in NOSPCRLF {
        FindFirstOfAt(middle, src.Rest(), NOSPCRLF);
        return;
      }
      ghost var before := src.Rest();
      var c := src.Get();
      MoveOne(middle, before);
      middle := middle + [c.value];
    }
  }

  /** `getparams` */
  method GetParams(src: CharStream) returns (middles: seq<string>, trailing: string)
    requires src.Valid() && src.Good()
    modifies src`pos, src`eofbit, src`failbit
    ensures src.Valid()
    ensures Parsed(middles, trailing, !src.failbit) == ParseParams(old(src.Rest()), 0)
  {
    ghost var r := src.Rest();
    middles := [];
    trailing := "";
    var n := 0;
    PrependNone(ParseParams(r, 0));
    while n < 14
      invariant src.Valid() && 0 <= n <= 14 && |middles| == n && trailing == ""
      invariant !src.failbit
      invariant src.eofbit <==> n > 0 && src.Rest() == ""
      invariant Prepend(middles, ParseParams(src.Rest(), n)) == ParseParams(r, 0)
      decreases 14 - n
    {
      var more, middle;
      more, middle, trailing := GetParam(src, n);
      if !more {
        return;
      }
      n := n + 1;
      PrependTwice(middles, [middle], ParseParams(src.Rest(), n));
      middles := middles + [middle];
      trailing := "";
    }
    trailing := GetLast(src);
  }

  /** The loop of `getparams`, its condition and body: another middle, or the end. */
  method GetParam(src: CharStream, n: nat) returns (more: bool, middle: string, trailing: string)
    requires src.Valid() && !src.failbit && (src.eofbit <==> n > 0 && src.Rest() == "") && n < 14
    modifies src`pos, src`eofbit, src`failbit
    ensures src.Valid()
    ensures more ==>
              && ParseParams(old(src.Rest()), n) == Prepend([middle], ParseParams(src.Rest(), n + 1))
              && !src.failbit && (src.eofbit <==> src.Rest() == "")
    ensures !more ==> Parsed([], trailing, !src.failbit) == ParseParams(old(src.Rest()), n)
  {
    ghost var before := src.Rest();
    more, middle, trailing := false, "", "";
    var p := src.Peek();
    if p != Some(' ') {
      return;
    }
    var c := src.Get();
    p := src.Peek();
    if p == Some(':') {
      c := src.Get();
      trailing := GetTrailing(src);
      return;
    }
    middle := GetMiddle(src, "");
    if src.failbit {
      return;
    }
    MiddleStep(before, n);
    more := true;
  }

  /** The end of `getparams`, once 14 middles have been read: the colon before the trailing is optional. */
  method GetLast(src: CharStream) returns (trailing: string)
    requires src.Valid() && !src.failbit && (src.eofbit <==> src.Rest() == "")
    modifies src`pos, src`eofbit, src`failbit
    ensures src.Valid()
    ensures Parsed([], trailing, !src.failbit) == ParseParams(old(src.Rest()), 14)
  {
    trailing := "";
    var p := src.Peek();
    if p == Some(' ') {
      var c := src.Get();
      p := src.Peek();
      if p == Some(':') {
        c := src.Get();
      }
      trailing := GetTrailing(src);
    }
  }
}
