/** Whole lines: what parsing a rendered line gives back, the parts of a prefix, and the trip over a stream. */
module MessageLines {
  import opened Text
  import opened Escapes
  import opened Objects
  import opened MessageParams
  import opened MessageGrammar
  import opened Messages

  // ----- trimming

  lemma {:induction false} TrimRightConcat(s: string, t: string)
    ensures TrimRight(s + t) == if TrimRight(t) == "" then TrimRight(s) else s + TrimRight(t)
  {
    if t == "" {
      assert s + t == s;
    } else {
      assert (s + t)[|s + t| - 1] == t[|t| - 1];
      if t[|t| - 1] in WHITESPACE {
        assert (s + t)[..|s + t| - 1] == s + t[..|t| - 1];
        TrimRightConcat(s, t[..|t| - 1]);
      }
    }
  }

  lemma {:induction false} TrimRightSpaces(t: string)
    requires forall i :: 0 <= i < |t| ==> t[i] in WHITESPACE
    ensures TrimRight(t) == ""
  {
    if t == "" {
    } else {
      TrimRightSpaces(t[..|t| - 1]);
    }
  }

  lemma TrimRightIdempotent(s: string)
    ensures TrimRight(TrimRight(s)) == TrimRight(s)
  {
  }

  // ----- a rendered line

  /** The line before its end: an optional prefix, the command and the parameter text. */
  function LineText(prefix: Option<string>, command: string, params: string): string {
    Head(prefix, command) + params
  }

  function Head(prefix: Option<string>, command: string): string {
    (if prefix.Some? then ":" + prefix.value + " " else "") + command
  }

  ghost predicate IsWord(s: string) {
    s != "" && Free(s, WHITESPACE)
  }

  /** A prefix and a command that the line format can carry. */
  ghost predicate HeadFits(prefix: Option<string>, command: string) {
    && IsWord(command)
    && (prefix.Some? ==> IsWord(prefix.value))
    && (prefix.None? ==> command[0] != ':')
  }

  lemma WordRead(w: string, r: string)
    requires IsWord(w)
    requires r == "" || r[0] in WHITESPACE
    ensures SkipSpace(w + r) == w + r && SkipSpace(" " + w + r) == w + r
    ensures WordOf(w + r) == w && AfterWord(w + r) == r
  {
    assert (w + r)[0] == w[0];
    FindFirstOfAt(w, r, WHITESPACE);
    assert " " + w + r == " " + (w + r);
    assert "" + (w + r) == w + r;
    FindFirstNotOfAt(" ", w + r, WHITESPACE);
    FindFirstNotOfAt("", w + r, WHITESPACE);
  }

  lemma NoBreak(q: string)
    ensures Cut(q) == q <==> Free(q, {'\n'})
  {
    assert q[..|q|] == q;
  }

  /** The parameter text up to its first line break. */
  function Cut(q: string): string {
    q[..FindFirstOf(q, {'\n'})]
  }

  lemma RestRead(m: Msg, r: string, command: string, q: string)
    requires IsWord(command) && SkipSpace(r) == command + q
    requires q == "" || q[0] in WHITESPACE
    ensures ParseRest(m, r) == (m.(command := command, params := if q == "" then m.params else Cut(q)), q != "")
  {
    WordRead(command, q);
  }

  lemma PrefixRead(m: Msg, t: string, p: string, r: string)
    requires IsWord(p) && r != "" && r[0] in WHITESPACE
    requires t != "" && t[0] == ':' && t[1..] == p + r && TrimRight(t) == t
    ensures ParseMsg(m, t) == ParseRest(m.(line := t, prefix := p), r)
  {
    WordRead(p, r);
  }

  lemma ColonTail(p: string, r: string)
    ensures (":" + p + r)[1..] == p + r
  {
  }

  lemma HeadShape(prefix: Option<string>, command: string, q: string)
    requires HeadFits(prefix, command) && TrimRight(q) == q
    ensures var t := LineText(prefix, command, q);
            && TrimRight(t) == t && t != ""
            && t == (if prefix.Some? then ":" + prefix.value + (" " + command + q) else command + q)
  {
    TrimRightConcat(Head(prefix, command), q);
    HeadTrimmed(prefix, command);
    assert q == "" ==> LineText(prefix, command, q) == Head(prefix, command);
    if prefix.Some? {
      Assoc(":" + prefix.value, " " + command, q);
      Assoc(":" + prefix.value, " ", command);
    } else {
      assert "" + command == command;
    }
  }

  /** The parameter text is whatever follows the head, up to a line break. */
  lemma HeadRead(m: Msg, prefix: Option<string>, command: string, q: string)
    requires HeadFits(prefix, command)
    requires q == "" || q[0] in WHITESPACE
    requires TrimRight(q) == q
    ensures var t := LineText(prefix, command, q);
            ParseMsg(m, t) ==
            (Msg(t, prefix.GetOr(m.prefix), command, if q == "" then m.params else Cut(q)), q != "")
  {
    var t := LineText(prefix, command, q);
    HeadShape(prefix, command, q);
    if prefix.Some? {
      PrefixedRead(m, t, prefix.value, command, q);
    } else {
      BareRead(m, t, command, q);
    }
  }

  lemma PrefixedRead(m: Msg, t: string, p: string, command: string, q: string)
    requires IsWord(p) && IsWord(command)
    requires q == "" || q[0] in WHITESPACE
    requires t == ":" + p + (" " + command + q) && TrimRight(t) == t
    ensures ParseMsg(m, t) == (Msg(t, p, command, if q == "" then m.params else Cut(q)), q != "")
  {
    WordRead(command, q);
    ColonTail(p, " " + command + q);
    PrefixRead(m, t, p, " " + command + q);
    RestRead(m.(line := t, prefix := p), " " + command + q, command, q);
  }

  lemma BareRead(m: Msg, t: string, command: string, q: string)
    requires IsWord(command) && command[0] != ':'
    requires q == "" || q[0] in WHITESPACE
    requires t == command + q && TrimRight(t) == t
    ensures ParseMsg(m, t) == (Msg(t, m.prefix, command, if q == "" then m.params else Cut(q)), q != "")
  {
    WordRead(command, q);
    RestRead(m.(line := t), t, command, q);
    assert t[0] == command[0];
  }

  lemma HeadTrimmed(prefix: Option<string>, command: string)
    requires HeadFits(prefix, command)
    ensures TrimRight(Head(prefix, command)) == Head(prefix, command)
  {
    var h := Head(prefix, command);
    assert h[|h| - 1] == command[|command| - 1];
  }

  /**
    A rendered line, with any white space such as CR or CRLF for its end, gives back prefix, command and
    parameter text exactly when that text does not itself end in white space and has no line break.
   */
  lemma LineIff(prefix: Option<string>, command: string, params: string, eol: string)
    requires HeadFits(prefix, command)
    requires params != "" && params[0] in WHITESPACE
    requires forall i :: 0 <= i < |eol| ==> eol[i] in WHITESPACE
    ensures var (m, ok) := ParseMsg(CLEARED, LineText(prefix, command, params) + eol);
            ok && m.prefix == prefix.GetOr("") && m.command == command && m.params == params <==>
            params[|params| - 1] !in WHITESPACE && Free(params, {'\n'})
  {
    LineParsed(prefix, command, params, eol);
    NoBreak(params);
    NoBreak(TrimRight(params));
  }

  /** What parsing makes of a rendered line: the parameter text ends at a line break or white space at its end. */
  lemma LineParsed(prefix: Option<string>, command: string, params: string, eol: string)
    requires HeadFits(prefix, command)
    requires params != "" && params[0] in WHITESPACE
    requires forall i :: 0 <= i < |eol| ==> eol[i] in WHITESPACE
    ensures var (m, ok) := ParseMsg(CLEARED, LineText(prefix, command, params) + eol);
            && ok == (TrimRight(params) != "")
            && m.prefix == prefix.GetOr("") && m.command == command && m.params == Cut(TrimRight(params))
  {
    var q := TrimRight(params);
    TrimmedLine(prefix, command, params, eol);
    ParseTrimmed(CLEARED, LineText(prefix, command, params) + eol);
    TrimRightIdempotent(params);
    HeadRead(CLEARED, prefix, command, q);
  }

  lemma TrimmedLine(prefix: Option<string>, command: string, params: string, eol: string)
    requires HeadFits(prefix, command)
    requires forall i :: 0 <= i < |eol| ==> eol[i] in WHITESPACE
    ensures TrimRight(LineText(prefix, command, params) + eol) == LineText(prefix, command, TrimRight(params))
    ensures LineText(prefix, command, TrimRight(params)) != ""
  {
    TrimRightSpaces(eol);
    TrimRightConcat(LineText(prefix, command, params), eol);
    TrimRightConcat(Head(prefix, command), params);
    HeadTrimmed(prefix, command);
    assert Head(prefix, command) + "" == Head(prefix, command);
  }

  /** Parsing starts by trimming, and trimming twice is trimming once. */
  lemma ParseTrimmed(m: Msg, line: string)
    requires TrimRight(line) != ""
    ensures ParseMsg(m, TrimRight(line)) == ParseMsg(m, line)
  {
    TrimRightIdempotent(line);
  }

  /**
    Prefix and command come back from a line ended by any white space, such as CR or CRLF, and so do any
    parameters that the grammar allows, exactly when their rendering does not itself end in white space.
   */
  lemma LineRoundTrip(prefix: Option<string>, command: string, ps: seq<string>, style: Style, eol: string)
    requires HeadFits(prefix, command) && Grammatical(ps, style)
    requires forall i :: 0 <= i < |eol| ==> eol[i] in WHITESPACE
    ensures var (m, ok) := ParseMsg(CLEARED, LineText(prefix, command, Render(ps, style)) + eol);
            && m.prefix == prefix.GetOr("") && m.command == command
            && var text := Render(ps, style);
               (ok && Params(m.params) == ps <==> text[|text| - 1] !in WHITESPACE)
  {
    RenderShape(ps, style);
    LineParsed(prefix, command, Render(ps, style), eol);
    NoBreak(TrimRight(Render(ps, style)));
    TrimmedIff(ps, style);
  }

  /** The trailing `x ` loses its space. */
  lemma EndSpaceLost()
    ensures var (m, ok) := ParseMsg(CLEARED, "CMD :x "); !(ok && Params(m.params) == ["x "])
  {
    var ps := ["x "];
    assert Join([]) + (" :" + ps[0]) == " :x " && ps[..0] == [];
    assert LineText(None, "CMD", " :x ") + "" == "CMD :x ";
    LineRoundTrip(None, "CMD", ps, AfterSpaceColon, "");
  }

  lemma TrimmedIff(ps: seq<string>, style: Style)
    requires Grammatical(ps, style) && Render(ps, style) != ""
    ensures var text := Render(ps, style);
            TrimRight(text) != "" && Params(TrimRight(text)) == ps <==> text[|text| - 1] !in WHITESPACE
  {
    var text := Render(ps, style);
    if text[|text| - 1] in WHITESPACE {
      TrimmedParams(ps, style);
    } else {
      ParamsRoundTrip(ps, style);
    }
  }

  /** Dropping white space at the end of a rendering loses something of its parameters. */
  lemma TrimmedParams(ps: seq<string>, style: Style)
    requires Grammatical(ps, style)
    requires Render(ps, style) != "" && Render(ps, style)[|Render(ps, style)| - 1] in WHITESPACE
    ensures Params(TrimRight(Render(ps, style))) != ps
  {
    var ms, t := ps[..|ps| - 1], ps[|ps| - 1];
    match style
    case AsMiddle => TrimmedMiddles(ps, ms, t);
    case AfterSpaceColon => TrimmedColon(ps, ms, t);
    case AfterSpace => TrimmedSpace(ps, ms, t);
  }

  /** A text is at least as long as its parameters after a space each, the last one left out when it is empty. */
  lemma ParamsLength(q: string, ms: seq<string>, t: string)
    ensures Params(q) == ms + [t] ==> |q| >= |Join(ms)| + if t == "" then 0 else 1 + |t|
  {
    var rest, k := Soundness(q, 0);
    var p := ParseParams(q, 0);
    RestLength(rest, k);
    JoinConcat(ms, [t]);
    assert Join([t]) == " " + t;
    if Params(q) == ms + [t] && p.ok {
      assert (p.middles + [p.trailing])[..|p.middles|] == p.middles;
      assert (ms + [t])[..|ms|] == ms;
      assert p.middles == ms;
      LastSame(ms, p.trailing, t);
    }
  }

  lemma RestLength(rest: string, k: nat)
    requires k <= 14
    ensures var p := ParseParams(rest, k); p.middles == [] && p.trailing != "" ==> |rest| > |p.trailing|
  {
  }

  lemma TrimShorter(s: string)
    requires s != "" && s[|s| - 1] in WHITESPACE
    ensures |TrimRight(s)| < |s|
  {
  }

  lemma TrimmedMiddles(ps: seq<string>, ms: seq<string>, t: string)
    requires ps != [] && ms == ps[..|ps| - 1] && t == ps[|ps| - 1]
    requires AllMiddles(ps)
    requires Join(ps) != "" && Join(ps)[|Join(ps)| - 1] in WHITESPACE
    ensures Params(TrimRight(Join(ps))) != ps
  {
    assert IsMiddle(ps[|ps| - 1]);
    assert ps == ms + [t];
    TrimShorter(Join(ps));
    JoinLength(ms, t);
    ParamsLength(TrimRight(Join(ps)), ms, t);
  }

  lemma JoinLength(ms: seq<string>, t: string)
    ensures |Join(ms + [t])| == |Join(ms)| + 1 + |t|
  {
    JoinConcat(ms, [t]);
    assert Join([t]) == " " + t;
  }

  lemma TrimmedColon(ps: seq<string>, ms: seq<string>, t: string)
    requires ps != [] && ms == ps[..|ps| - 1] && t == ps[|ps| - 1]
    requires AllMiddles(ms) && |ms| <= 14 && IsTrailing(t)
    requires var text := Join(ms) + (" :" + t); text[|text| - 1] in WHITESPACE
    ensures Params(TrimRight(Join(ms) + (" :" + t))) != ps
  {
    TrimColonText(ms, t);
    TrimmedTrailing(t);
    ColonDiffers(ps, ms, TrimRight(t));
  }

  lemma TrimmedTrailing(t: string)
    requires t != "" && t[|t| - 1] in WHITESPACE && IsTrailing(t)
    ensures TrimRight(t) != t && IsTrailing(TrimRight(t))
  {
    TrimShorter(t);
  }

  lemma ColonDiffers(ps: seq<string>, ms: seq<string>, u: string)
    requires ps != [] && ms == ps[..|ps| - 1] && u != ps[|ps| - 1]
    requires AllMiddles(ms) && |ms| <= 14 && IsTrailing(u)
    ensures Params(Join(ms) + (" :" + u)) != ps
  {
    TrailingIff(ms, u);
    assert (ms + [u])[|ms|] == u;
  }

  /** Trimming stops at the colon. */
  lemma TrimColonText(ms: seq<string>, t: string)
    requires var text := Join(ms) + (" :" + t); text[|text| - 1] in WHITESPACE
    ensures TrimRight(Join(ms) + (" :" + t)) == Join(ms) + (" :" + TrimRight(t))
    ensures t != "" && t[|t| - 1] in WHITESPACE
  {
    var head, u := Join(ms) + " :", TrimRight(t);
    Assoc(Join(ms), " :", t);
    TrimRightConcat(head, t);
    assert head[|head| - 1] == ':' && TrimRight(head) == head;
    assert u == "" ==> head + u == head;
    Assoc(Join(ms), " :", u);
    assert t == "" ==> Join(ms) + (" :" + t) == head;
  }

  lemma TrimmedSpace(ps: seq<string>, ms: seq<string>, t: string)
    requires ps != [] && ms == ps[..|ps| - 1] && t == ps[|ps| - 1]
    requires AllMiddles(ms) && |ms| == 14 && IsTrailing(t) && !(":" <= t)
    requires var text := Join(ms) + (" " + t); text[|text| - 1] in WHITESPACE
    ensures Params(TrimRight(Join(ms) + (" " + t))) != ps
  {
    TrimSpaceText(ms, t);
    if TrimRight(t) == "" {
      SpaceGone(ps, ms, t);
    } else {
      TrimmedTrailing(t);
      SpaceDiffers(ps, ms, TrimRight(t));
    }
  }

  /** With the trailing gone, the middles may lose some of their end, but never gain a parameter. */
  lemma SpaceGone(ps: seq<string>, ms: seq<string>, t: string)
    requires ps != [] && ms == ps[..|ps| - 1] && t == ps[|ps| - 1]
    requires AllMiddles(ms) && |ms| == 14
    ensures Params(TrimRight(Join(ms))) != ps
  {
    assert ps == ms + [t];
    ParamsLength(TrimRight(Join(ms)), ms, t);
    MiddlesRead(ms);
  }

  lemma SpaceDiffers(ps: seq<string>, ms: seq<string>, u: string)
    requires ps != [] && ms == ps[..|ps| - 1] && u != ps[|ps| - 1]
    requires AllMiddles(ms) && |ms| == 14 && IsTrailing(u) && !(":" <= u)
    ensures Params(Join(ms) + (" " + u)) != ps
  {
    NoColonIff(ms, u);
    assert (ms + [u])[|ms|] == u;
  }

  /** Trimming stops in the trailing or goes on into the middles. */
  lemma TrimSpaceText(ms: seq<string>, t: string)
    ensures TrimRight(Join(ms) + (" " + t)) ==
            if TrimRight(t) == "" then TrimRight(Join(ms)) else Join(ms) + (" " + TrimRight(t))
  {
    Assoc(Join(ms), " ", t);
    TrimRightConcat(Join(ms) + " ", t);
    Assoc(Join(ms), " ", TrimRight(t));
    assert TrimRight(" ") == "";
    TrimRightConcat(Join(ms), " ");
  }

  lemma {:induction false} JoinShape(ms: seq<string>)
    requires AllMiddles(ms)
    ensures Free(Join(ms), {'\n'}) && (ms != [] ==> Join(ms) != "" && Join(ms)[0] == ' ')
  {
    if ms == [] {
    } else {
      MiddlesTail(ms);
      JoinShape(ms[1..]);
    }
  }

  lemma RenderShape(ps: seq<string>, style: Style)
    requires Grammatical(ps, style)
    ensures var text := Render(ps, style); text != "" && text[0] == ' ' && Free(text, {'\n'})
  {
    JoinShape(if style.AsMiddle? then ps else ps[..|ps| - 1]);
  }

  // ----- the parts of a prefix

  /** Nothing, unless `s` has its shape. */
  ghost function Shaped(shape: bool, s: string): string {
    if shape then s else ""
  }

  /**
    For a prefix `nick!user@host` the accessors give its three parts: the nick exactly if it has the shape of a
    nickname, and the user exactly if it has none of the characters that end one.
   */
  lemma FullPrefix(nick: string, user: string, host: string)
    requires Free(nick, {'!', '@'}) && Free(user, {'@'})
    ensures var p := nick + "!" + user + "@" + host;
            && Nickname(p) == Shaped(NickShape(nick), nick) && User(p) == Shaped(UserShape(user), user)
            && Host(p) == host && ServerName(p) == ""
  {
    var p := nick + "!" + user + "@" + host;
    assert p == nick + ("!" + user + "@" + host);
    FindFirstOfAt(nick, "!" + user + "@" + host, {'!'});
    assert p[..|nick|] == nick;
    var front := nick + "!" + user;
    assert p == front + ("@" + host);
    assert Free(front, {'@'});
    FindFirstOfAt(front, "@" + host, {'@'});
    assert p[|nick| + 1..|front|] == user;
    assert p[|front| + 1..] == host;
    Allowed(nick, user);
  }

  /** For a prefix `nick@host` there is no user. */
  lemma HostPrefix(nick: string, host: string)
    requires Free(nick, {'!', '@'}) && Free(host, {'!'})
    ensures var p := nick + "@" + host;
            && Nickname(p) == Shaped(NickShape(nick), nick) && User(p) == "" && Host(p) == host
            && ServerName(p) == ""
  {
    var p := nick + "@" + host;
    assert p == nick + ("@" + host);
    FindFirstOfAt(nick, "@" + host, {'@'});
    assert p[..|nick|] == nick && p[|nick| + 1..] == host;
    assert Free(p, {'!'});
    assert p + "" == p;
    FindFirstOfAt(p, "", {'!'});
    Allowed(nick, "");
  }

  /** For a prefix `nick!user` there is no user either, and no host. */
  lemma UserPrefix(nick: string, user: string)
    requires Free(nick, {'!', '@'}) && Free(user, {'@'})
    ensures var p := nick + "!" + user;
            && Nickname(p) == Shaped(NickShape(nick), nick) && User(p) == "" && Host(p) == ""
            && ServerName(p) == ""
  {
    var p := nick + "!" + user;
    assert p == nick + ("!" + user);
    FindFirstOfAt(nick, "!" + user, {'!'});
    assert p[..|nick|] == nick;
    assert Free(p, {'@'});
    assert p + "" == p;
    FindFirstOfAt(p, "", {'@'});
    Allowed(nick, "");
  }

  /** When the first `@` stands before the first `!`, there is neither nick nor user. */
  lemma LatePrefix(front: string, mid: string, host: string)
    requires Free(front, {'!', '@'}) && Free(mid, {'!'})
    ensures var p := front + "@" + mid + "!" + host;
            Nickname(p) == "" && User(p) == "" && Host(p) == mid + "!" + host && ServerName(p) == ""
  {
    var p := front + "@" + mid + "!" + host;
    assert p == front + ("@" + mid + "!" + host);
    FindFirstOfAt(front, "@" + mid + "!" + host, {'@'});
    var nick := front + "@" + mid;
    assert p == nick + ("!" + host);
    assert Free(nick, {'!'});
    FindFirstOfAt(nick, "!" + host, {'!'});
    assert p[..|nick|] == nick && nick[|front|] == '@';
    assert p[|front| + 1..] == mid + "!" + host;
    Allowed(nick, "");
  }

  /** A prefix with neither mark is a server name, and a nickname as well exactly if it has the shape of one. */
  lemma BarePrefix(p: string)
    requires Free(p, {'!', '@'})
    ensures ServerName(p) == p && Nickname(p) == Shaped(NickShape(p), p) && User(p) == "" && Host(p) == ""
  {
    assert p + "" == p;
    FindFirstOfAt(p, "", {'!'});
    FindFirstOfAt(p, "", {'@'});
    Allowed(p, "");
  }

  // ----- over a stream

  /** Parsing the line that a message keeps gives that message again. */
  lemma ParseAgain(line: string)
    ensures ParseMsg(CLEARED, ParseMsg(CLEARED, line).0.line) == ParseMsg(CLEARED, line)
  {
    if line != "" {
      if TrimRight(line) != "" {
        ParseTrimmed(CLEARED, line);
      }
    }
  }

  /**
    A message made by `parse`, whether it succeeded or not, is read back from its serialised form into a
    fresh message with the same line, prefix, command and parameters and the same outcome, and exactly its
    text is consumed.
   */
  lemma WireRoundTrip(line: string, rest: string)
    ensures var (m, ok) := ParseMsg(CLEARED, line);
            ReadMsg(MsgText(m) + rest, CLEARED) == Some(Taken((m, ok), rest))
  {
    var m := ParseMsg(CLEARED, line).0;
    WireObject(m, rest);
    ParseAgain(line);
  }

  lemma WireObject(m: Msg, rest: string)
    ensures Object(MsgText(m) + rest) == Some(Taken(Escaped(m.line), rest))
    ensures Unescaped(Escaped(m.line)) == m.line
  {
    EscapedFree(m.line);
    BalancedFree(Escaped(m.line));
    ObjectIff(MsgText(m) + rest, Escaped(m.line), rest);
    UnescapeEscape(m.line);
  }

  /** The old message `m0` with the fields that `m` has; the parameters are set when parsing succeeds. */
  function Over(m0: Msg, m: Msg, ok: bool): Msg {
    Msg(
      if m.line != "" then m.line else m0.line,
      if m.prefix != "" then m.prefix else m0.prefix,
      if m.command != "" then m.command else m0.command,
      if ok then m.params else m0.params)
  }

  lemma ParseRestInto(m: Msg, m0: Msg, r: string)
    requires m.line != "" && m.command == "" && m.params == ""
    requires m0.line == m.line && (m.prefix != "" ==> m0.prefix == m.prefix)
    ensures var (n, ok) := ParseRest(m, r);
            ParseRest(m0, r) == (Over(m0, n, ok), ok) && n.line == m.line && n.prefix == m.prefix
  {
    assert SkipSpace(r) != "" ==> WordOf(SkipSpace(r)) != "";
  }

  /** Parsing a trimmed line into a message changes the fields that parsing it into a fresh one fills in. */
  lemma ParseInto(m0: Msg, line: string)
    requires TrimRight(line) == line
    ensures var (m, ok) := ParseMsg(CLEARED, line);
            ParseMsg(m0, line) == (Over(m0, m, ok), ok)
  {
    if line != "" {
      var n, n0 := CLEARED.(line := line), m0.(line := line);
      if line[0] == ':' {
        var s := SkipSpace(line[1..]);
        if s != "" {
          var p := WordOf(s);
          assert p != "";
          ParseRestInto(n.(prefix := p), n0.(prefix := p), AfterWord(s));
        }
      } else {
        ParseRestInto(n, n0, line);
      }
    }
  }

  lemma LineTrimmed(line: string)
    ensures var t := ParseMsg(CLEARED, line).0.line; TrimRight(t) == t
  {
    TrimRightIdempotent(line);
  }

  /** The message `m`, parsed with the outcome `ok`, sets every field that `m0` has. */
  ghost predicate Covers(m: Msg, ok: bool, m0: Msg) {
    && (m.line != "" || m0.line == "")
    && (m.prefix != "" || m0.prefix == "")
    && (m.command != "" || m0.command == "")
    && (ok || m0.params == "")
  }

  /**
    Read into a message that is in use, a message made by `parse`, whether it succeeded or not, comes out the
    same exactly when the old message had no field that the parsing left unset: `parse` keeps old fields.
   */
  lemma WireIntoUsed(m0: Msg, line: string, m: Msg, ok: bool, rest: string)
    requires (m, ok) == ParseMsg(CLEARED, line)
    ensures ReadMsg(MsgText(m) + rest, m0) == Some(Taken((m, ok), rest)) <==> Covers(m, ok, m0)
  {
    ParsedFields(line, m, ok);
    WireIff(m0, m, ok, rest);
  }

  lemma ParsedFields(line: string, m: Msg, ok: bool)
    requires (m, ok) == ParseMsg(CLEARED, line)
    ensures (m, ok) == ParseMsg(CLEARED, m.line) && TrimRight(m.line) == m.line && (ok || m.params == "")
  {
    NoParams(line);
    ParseAgain(line);
    LineTrimmed(line);
  }

  lemma WireIff(m0: Msg, m: Msg, ok: bool, rest: string)
    requires (m, ok) == ParseMsg(CLEARED, m.line) && TrimRight(m.line) == m.line && (ok || m.params == "")
    ensures ReadMsg(MsgText(m) + rest, m0) == Some(Taken((m, ok), rest)) <==> Covers(m, ok, m0)
  {
    OverIff(m0, m, ok);
    WireInto(m0, m, ok, rest);
  }

  /** What is read into a used message. */
  lemma WireInto(m0: Msg, m: Msg, ok: bool, rest: string)
    requires (m, ok) == ParseMsg(CLEARED, m.line) && TrimRight(m.line) == m.line
    ensures ReadMsg(MsgText(m) + rest, m0) == Some(Taken((Over(m0, m, ok), ok), rest))
  {
    WireObject(m, rest);
    ParseInto(m0, m.line);
  }

  lemma OverIff(m0: Msg, m: Msg, ok: bool)
    requires ok || m.params == ""
    ensures Over(m0, m, ok) == m <==> Covers(m, ok, m0)
  {
  }

  lemma NoParams(line: string)
    ensures !ParseMsg(CLEARED, line).1 ==> ParseMsg(CLEARED, line).0.params == ""
  {
  }

  // ----- lines on which this shows

  /** Written and read into a message with a prefix, `PING :x` comes back with that prefix. */
  lemma StalePrefix(rest: string)
    ensures var (m, ok) := ParseMsg(CLEARED, "PING :x");
            && ok && m.prefix == ""
            && exists got ::
                 && ReadMsg(MsgText(m) + rest, CLEARED.(prefix := "irc.net")) == Some(got)
                 && got.value.0.prefix == "irc.net"
  {
    var line := "PING :x";
    var m0 := CLEARED.(prefix := "irc.net");
    var m := PingParsed();
    WireObject(m, rest);
    ParseInto(m0, line);
    assert ReadMsg(MsgText(m) + rest, m0) == Some(Taken(ParseMsg(m0, line), rest));
  }

  /** A line without a prefix, trimmed and without line breaks. */
  lemma PlainLine(line: string, command: string, q: string)
    requires IsWord(command) && command[0] != ':' && q != "" && q[0] in WHITESPACE && Free(q, {'\n'})
    requires line == command + q && q[|q| - 1] !in WHITESPACE
    ensures ParseMsg(CLEARED, line) == (Msg(line, "", command, q), true)
  {
    assert line[|line| - 1] == q[|q| - 1];
    NoBreak(q);
    BareRead(CLEARED, line, command, q);
  }

  lemma PingParsed() returns (m: Msg)
    ensures ParseMsg(CLEARED, "PING :x") == (m, true) && m == Msg("PING :x", "", "PING", " :x")
  {
    m := Msg("PING :x", "", "PING", " :x");
    PlainLine("PING :x", "PING", " :x");
  }

  /** The line parses, but its parameter text, set off by a tab, is lost in one empty parameter. */
  lemma TabLosesText()
    ensures ParseMsg(CLEARED, "CMD\tx") == (Msg("CMD\tx", "", "CMD", "\tx"), true)
    ensures Params("\tx") == [""]
  {
    PlainLine("CMD\tx", "CMD", "\tx");
    LostTexts();
  }
}
