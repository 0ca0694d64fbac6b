/** `getstring`, the reader of quoted or space-separated tokens, and the loop of its callers. */
module Tokens {
  import opened Text
  import opened CharStreams

  const QUOTES: set<char> := set c: char | c == '"' || c == '\''

  /** The text up to `term`, and what follows `term`. */
  function Until(body: string, term: char): (string, string) {
    var n := FindFirstOf(body, {term});
    (body[..n], if n < |body| then body[n + 1..] else "")
  }

  /** The token that `r` starts with, empty when there is none, and the text after it. */
  function Token(r: string): (string, string) {
    var s := SkipSpace(r);
    if s != "" && s[0] in QUOTES then Until(s[1..], s[0]) else Until(s, ' ')
  }

  /** `getstring` */
  method GetString(src: CharStream, s: string) returns (t: string)
    requires src.Valid()
    modifies src`pos, src`eofbit, src`failbit
    ensures src.Valid()
    ensures src.Rest() == if old(src.Good()) then Token(old(src.Rest())).1 else old(src.Rest())
    ensures Token(old(src.Readable())).0 == "" ==> src.failbit && t == s
    ensures Token(old(src.Readable())).0 != "" ==> src.Good() && t == Token(old(src.Readable())).0
  {
    var term := OpenToken(src);
    var n := ReadUntil(src, term);
    if n == "" {
      src.SetFail();
      return s;
    }
    src.Clear();
    return n;
  }

  /** Skips white space and an opening quote; gives the character that will end the token. */
  method OpenToken(src: CharStream) returns (term: char)
    requires src.Valid()
    modifies src`pos, src`eofbit, src`failbit
    ensures src.Valid()
    ensures !old(src.Good()) ==> !src.Good() && src.Rest() == old(src.Rest())
    ensures old(src.Good()) ==>
              && (src.Good() || src.Rest() == "")
              && var s := SkipSpace(old(src.Rest()));
                 if s != "" && s[0] in QUOTES then term == s[0] && src.Rest() == s[1..]
                 else term == ' ' && src.Rest() == s
  {
    term := ' ';
    src.SkipWs();
    var p := src.Peek();
    if p != Some('"') {
      p := src.Peek();
    }
    if p.Some? && p.value in QUOTES {
      var q := src.Get();
      term := q.value;
    }
  }

  /** Gathers the characters before `term`, which is dropped. */
  method ReadUntil(src: CharStream, term: char) returns (n: string)
    requires src.Valid()
    modifies src`pos, src`eofbit, src`failbit
    ensures src.Valid()
    ensures !old(src.Good()) ==> n == "" && src.Rest() == old(src.Rest())
    ensures old(src.Good()) ==> (n, src.Rest()) == Until(old(src.Rest()), term)
  {
    ghost var body := src.Rest();
    n := "";
    while true
      invariant src.Valid() && src.Good() == old(src.Good())
      invariant body == n + src.Rest() && Free(n, {term})
      invariant !src.Good() ==> n == ""
      decreases |src.Rest()|
    {
      ghost var before := src.Rest();
      var c := src.Get();
      if c == None {
        FindFirstOfAt(n, "", {term});
        return;
      }
      if c.value == term {
        FindFirstOfAt(n, before, {term});
        return;
      }
      MoveOne(n, before);
      n := n + [c.value];
    }
  }

  /** The tokens that successive calls give, until one fails. */
  function TokensOf(r: string): seq<string>
    decreases |r|
  {
    var (token, rest) := Token(r);
    if token == "" then [] else [token] + TokensOf(rest)
  }

  lemma TokensStep(r: string)
    ensures TokensOf(r) == if Token(r).0 == "" then [] else [Token(r).0] + TokensOf(Token(r).1)
    ensures Token(r).0 != "" ==> |Token(r).1| < |r|
  {
  }

  /** The loop of the callers, which gathers tokens until the reader fails. */
  method ReadAll(src: CharStream) returns (vals: seq<string>)
    requires src.Valid()
    modifies src`pos, src`eofbit, src`failbit
    ensures src.Valid() && src.failbit
    ensures vals == TokensOf(old(src.Readable()))
    ensures !old(src.Good()) ==> src.Rest() == old(src.Rest())
  {
    ghost var r := src.Readable();
    vals := [];
    var val := "";
    while true
      invariant src.Valid()
      invariant vals + TokensOf(src.Readable()) == TokensOf(r)
      invariant !old(src.Good()) ==> !src.Good() && src.Rest() == old(src.Rest())
      decreases |src.Rest()|
    {
      ghost var sofar := vals;
      TokensStep(src.Readable());
      val := GetString(src, val);
      if src.failbit {
        return;
      }
      vals := vals + [val];
      Assoc(sofar, [val], TokensOf(src.Readable()));
    }
  }

  // ----- writing tokens

  /** How a token is written: as it is, or between two of the same quote. */
  datatype Style = Raw | Quoted(quote: char)

  ghost predicate Fits(token: string, style: Style) {
    && token != ""
    && match style
       case Raw => Free(token, {' '}) && token[0] !in QUOTES && token[0] !in WHITESPACE
       case Quoted(q) => q in QUOTES && Free(token, {q})
  }

  function Written(token: string, style: Style): string {
    match style
    case Raw => token
    case Quoted(q) => [q] + token + [q]
  }

  /** A token, how it is written and the gap after it. */
  datatype Item = Item(token: string, style: Style, gap: string)

  /** A gap is white space that starts with a space; the last one may be empty. */
  ghost predicate IsGap(gap: string, last: bool) {
    && (forall i :: 0 <= i < |gap| ==> gap[i] in WHITESPACE)
    && (if gap == "" then last else gap[0] == ' ')
  }

  function LineOf(items: seq<Item>): string {
    if items == [] then ""
    else Written(items[0].token, items[0].style) + (items[0].gap + LineOf(items[1..]))
  }

  function TokensIn(items: seq<Item>): seq<string> {
    if items == [] then [] else [items[0].token] + TokensIn(items[1..])
  }

  ghost predicate Writable(items: seq<Item>) {
    forall i :: 0 <= i < |items| ==>
      Fits(items[i].token, items[i].style) && IsGap(items[i].gap, i == |items| - 1)
  }

  lemma SpacesSkipped(spaces: string, r: string)
    requires forall i :: 0 <= i < |spaces| ==> spaces[i] in WHITESPACE
    ensures SkipSpace(spaces + r) == SkipSpace(r)
  {
    var n := FindFirstNotOf(r, WHITESPACE);
    var all := spaces + r[..n];
    assert spaces + r == all + r[n..];
    assert forall i :: 0 <= i < |all| ==> all[i] in WHITESPACE;
    FindFirstNotOfAt(all, r[n..], WHITESPACE);
  }

  lemma UntilAt(s: string, term: char, r: string)
    requires Free(s, {term})
    ensures Until(s + ([term] + r), term) == (s, r)
    ensures Until(s, term) == (s, "")
  {
    FindFirstOfAt(s, [term] + r, {term});
    assert (s + ([term] + r))[..|s|] == s && (s + ([term] + r))[|s| + 1..] == r;
    FindFirstOfAt(s, "", {term});
    assert s + "" == s;
  }

  /** One written token is read back; the gap after it is at most shortened by its first space. */
  lemma TokenRead(spaces: string, token: string, style: Style, gap: string, more: string) returns (gap': string)
    requires forall i :: 0 <= i < |spaces| ==> spaces[i] in WHITESPACE
    requires Fits(token, style) && IsGap(gap, more == "")
    ensures Token(spaces + (Written(token, style) + (gap + more))) == (token, gap' + more)
    ensures forall i :: 0 <= i < |gap'| ==> gap'[i] in WHITESPACE
  {
    match style
    case Quoted(q) =>
      gap' := gap;
      QuotedRead(spaces, token, q, gap + more);
    case Raw =>
      gap' := if gap == "" then "" else gap[1..];
      RawRead(spaces, token, gap + more, gap' + more);
  }

  lemma QuotedRead(spaces: string, token: string, q: char, r: string)
    requires forall i :: 0 <= i < |spaces| ==> spaces[i] in WHITESPACE
    requires Fits(token, Quoted(q))
    ensures Token(spaces + ([q] + token + [q] + r)) == (token, r)
  {
    var s := [q] + token + [q] + r;
    SpacesSkipped(spaces, s);
    NoSpaces(s);
    assert s[1..] == token + ([q] + r);
    UntilAt(token, q, r);
  }

  lemma RawRead(spaces: string, token: string, r: string, r': string)
    requires forall i :: 0 <= i < |spaces| ==> spaces[i] in WHITESPACE
    requires Fits(token, Raw) && (r == r' == "" || r == " " + r')
    ensures Token(spaces + (token + r)) == (token, r')
  {
    var s := token + r;
    assert s[0] == token[0];
    SpacesSkipped(spaces, s);
    NoSpaces(s);
    assert r == "" ==> s == token;
    UntilAt(token, ' ', r');
  }

  lemma NoSpaces(r: string)
    requires r != "" && r[0] !in WHITESPACE
    ensures SkipSpace(r) == r
  {
    assert "" + r == r;
    FindFirstNotOfAt("", r, WHITESPACE);
  }

  lemma {:induction false} TokensRead(spaces: string, items: seq<Item>)
    requires Writable(items)
    requires forall i :: 0 <= i < |spaces| ==> spaces[i] in WHITESPACE
    ensures TokensOf(spaces + LineOf(items)) == TokensIn(items)
    decreases items
  {
    if items == [] {
      SpacesSkipped(spaces, "");
    } else {
      var x := items[0];
      assert Writable(items[1..]) by {
        assert forall i :: 0 <= i < |items[1..]| ==> items[1..][i] == items[i + 1];
      }
      assert LineOf(items[1..]) == "" ==> items[1..] == [] by {
        if items[1..] != [] {
          assert Fits(items[1].token, items[1].style);
        }
      }
      var gap := TokenRead(spaces, x.token, x.style, x.gap, LineOf(items[1..]));
      TokensRead(gap, items[1..]);
    }
  }

  /**
    Any non-empty tokens, each written raw or quoted in a way that fits it and set apart by white space that
    starts with a space, are read back by the callers' loop, which ends by failing.
   */
  lemma TokensRoundTrip(items: seq<Item>)
    requires Writable(items)
    ensures TokensOf(LineOf(items)) == TokensIn(items)
  {
    assert "" + LineOf(items) == LineOf(items);
    TokensRead("", items);
  }

  /**
    Every text after its white space: a quote takes everything up to the same quote, or all there is when it is
    not closed; anything else goes up to the next space, other white space included. Nothing in front of its
    end is no token.
   */
  lemma TokenCases(spaces: string, body: string, q: char, rest: string)
    requires forall i :: 0 <= i < |spaces| ==> spaces[i] in WHITESPACE
    ensures (q == '"' || q == '\'') && Free(body, {q}) ==>
              && Token(spaces + ([q] + (body + ([q] + rest)))) == (body, rest)
              && Token(spaces + ([q] + body)) == (body, "")
    ensures body != "" && body[0] !in WHITESPACE && body[0] != '"' && body[0] != '\'' && Free(body, {' '}) ==>
              && Token(spaces + (body + (" " + rest))) == (body, rest)
              && Token(spaces + body) == (body, "")
    ensures Token(spaces) == ("", "")
  {
    SpacesSkipped(spaces, "");
    assert spaces + "" == spaces;
    if (q == '"' || q == '\'') && Free(body, {q}) {
      QuoteCases(spaces, body, q, rest);
    }
    if body != "" && body[0] !in WHITESPACE && body[0] != '"' && body[0] != '\'' && Free(body, {' '}) {
      RawRead(spaces, body, " " + rest, rest);
      RawRead(spaces, body, "", "");
      assert body + "" == body;
    }
  }

  lemma QuoteCases(spaces: string, body: string, q: char, rest: string)
    requires forall i :: 0 <= i < |spaces| ==> spaces[i] in WHITESPACE
    requires (q == '"' || q == '\'') && Free(body, {q})
    ensures Token(spaces + ([q] + (body + ([q] + rest)))) == (body, rest)
    ensures Token(spaces + ([q] + body)) == (body, "")
  {
    var s, t := [q] + (body + ([q] + rest)), [q] + body;
    SpacesSkipped(spaces, s);
    SpacesSkipped(spaces, t);
    NoSpaces(s);
    NoSpaces(t);
    assert s[1..] == body + ([q] + rest) && t[1..] == body;
    UntilAt(body, q, rest);
  }

  /** A token that fits some style. */
  ghost predicate Representable(token: string) {
    Fits(token, Raw) || Fits(token, Quoted('"')) || Fits(token, Quoted('\''))
  }

  /** Some text is read as the token `token` exactly when the token fits one of the styles. */
  lemma RepresentableIff(token: string)
    ensures (exists r :: token != "" && Token(r).0 == token) <==> Representable(token)
  {
    if Representable(token) {
      var style := StyleFor(token);
      var gap := TokenRead("", token, style, "", "");
      assert Token("" + (Written(token, style) + ("" + ""))).0 == token;
    }
    if r :| token != "" && Token(r).0 == token {
      var s := SkipSpace(r);
      assert s != "";
      if s[0] in QUOTES {
        assert Fits(token, Quoted(s[0]));
      } else {
        assert token[0] == s[0];
        assert Fits(token, Raw);
      }
    }
  }

  /** Some text is read by the callers' loop as the list `ts` exactly when each of its tokens fits a style. */
  lemma ListIff(ts: seq<string>)
    ensures (exists r :: TokensOf(r) == ts) <==> forall i :: 0 <= i < |ts| ==> Representable(ts[i])
  {
    if r :| TokensOf(r) == ts {
      TokensRepresentable(r);
    }
    if forall i :: 0 <= i < |ts| ==> Representable(ts[i]) {
      var items := ItemsFor(ts);
      TokensRoundTrip(items);
    }
  }

  lemma {:induction false} TokensRepresentable(r: string)
    ensures forall i :: 0 <= i < |TokensOf(r)| ==> Representable(TokensOf(r)[i])
    decreases |r|
  {
    TokensStep(r);
    if Token(r).0 == "" {
    } else {
      RepresentableIff(Token(r).0);
      TokensRepresentable(Token(r).1);
    }
  }

  /** One way of writing the tokens. */
  lemma {:induction false} ItemsFor(ts: seq<string>) returns (items: seq<Item>)
    requires forall i :: 0 <= i < |ts| ==> Representable(ts[i])
    ensures Writable(items) && TokensIn(items) == ts
    decreases ts
  {
    if ts == [] {
      items := [];
    } else {
      assert forall i :: 0 <= i < |ts[1..]| ==> ts[1..][i] == ts[i + 1];
      var more := ItemsFor(ts[1..]);
      assert Representable(ts[0]);
      items := [Item(ts[0], StyleFor(ts[0]), if more == [] then "" else " ")] + more;
      assert items[1..] == more && ts == [ts[0]] + ts[1..];
    }
  }

  ghost function StyleFor(token: string): (style: Style)
    requires Representable(token)
    ensures Fits(token, style)
  {
    if Fits(token, Raw) then Raw else if Fits(token, Quoted('"')) then Quoted('"') else Quoted('\'')
  }
}
