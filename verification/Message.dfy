/**
  An IRC message: how a line is taken apart, what the accessors make of its prefix, and how a message is
  written to and read from a stream.
 */
module Messages {
  import opened Text
  import opened CharStreams
  import opened Escapes
  import opened Objects
  import opened MessageParams

  /** The fields that parsing fills in. */
  datatype Msg = Msg(line: string, prefix: string, command: string, params: string)

  const CLEARED := Msg("", "", "", "")

  /** `hol::trim_right_mute`: white space at the end is dropped. */
  function TrimRight(s: string): (t: string)
    ensures t <= s
    ensures t != "" ==> t[|t| - 1] !in WHITESPACE
  {
    if s != "" && s[|s| - 1] in WHITESPACE then TrimRight(s[..|s| - 1]) else s
  }

  /** The word at the front of `r`, which starts with none of the white space. */
  function WordOf(r: string): string {
    r[..FindFirstOf(r, WHITESPACE)]
  }

  function AfterWord(r: string): string {
    r[FindFirstOf(r, WHITESPACE)..]
  }

  /** The command and the parameters at the front of `r`; without a parameter text there is nothing to parse. */
  function ParseRest(m: Msg, r: string): (p: (Msg, bool))
    ensures p.0.line == m.line && p.0.prefix == m.prefix
  {
    var s := SkipSpace(r);
    if s == "" then (m, false)
    else
      var n := m.(command := WordOf(s));
      var t := AfterWord(s);
      if t == "" then (n, false) else (n.(params := t[..FindFirstOf(t, {'\n'})]), true)
  }

  /** What `parse` makes of `line` in the message `m`: an optional prefix, the command and the parameters. */
  function ParseMsg(m: Msg, line: string): (p: (Msg, bool))
    ensures p.0.line == if line == "" then m.line else TrimRight(line)
  {
    if line == "" then (m, false)
    else
      var t := TrimRight(line);
      var n := m.(line := t);
      if t != "" && t[0] == ':' then
        var s := SkipSpace(t[1..]);
        if s == "" then (n, false) else ParseRest(n.(prefix := WordOf(s)), AfterWord(s))
      else ParseRest(n, t)
  }

  // ----- prefix accessors

  // Any octet except these may be in a user name.
  const NOSPCRLFAT: set<char> := set c: char | c == NUL || c == ' ' || c == '\r' || c == '\n' || c == '@'

  // The string these are in is made with its size, so that its terminating NUL is one of them.
  const BNF_SPECIAL: set<char> := set c: char | IsSpecial(c) || c == NUL

  /** `special` of section 2.3.1 of RFC 2812. */
  predicate IsSpecial(c: char) {
    '[' <= c <= '`' || '{' <= c <= '}'
  }

  predicate IsAlpha(c: char) {
    'a' <= c <= 'z' || 'A' <= c <= 'Z'
  }

  predicate IsNick(nick: string) {
    && nick != ""
    && (IsAlpha(nick[0]) || nick[0] in BNF_SPECIAL)
    && forall i :: 0 <= i < |nick| ==>
         IsAlpha(nick[i]) || '0' <= nick[i] <= '9' || nick[i] in BNF_SPECIAL || nick[i] == '-'
  }

  // ----- the same, by the grammar of section 2.3.1 of RFC 2812

  ghost predicate RfcLetter(c: char) {
    0x41 <= c as int <= 0x5A || 0x61 <= c as int <= 0x7A
  }

  ghost predicate RfcDigit(c: char) {
    0x30 <= c as int <= 0x39
  }

  ghost predicate RfcSpecial(c: char) {
    0x5B <= c as int <= 0x60 || 0x7B <= c as int <= 0x7D
  }

  /** `nickname`: a letter or special, then up to eight letters, digits, specials and dashes. */
  ghost predicate RfcNick(nick: string) {
    && 1 <= |nick| <= 9
    && (RfcLetter(nick[0]) || RfcSpecial(nick[0]))
    && forall i :: 1 <= i < |nick| ==>
         RfcLetter(nick[i]) || RfcDigit(nick[i]) || RfcSpecial(nick[i]) || nick[i] == '-'
  }

  /** The shape of a nickname at any length, with NUL among the specials. */
  ghost predicate NickShape(nick: string) {
    && nick != ""
    && (RfcLetter(nick[0]) || RfcSpecial(nick[0]) || nick[0] == '\0')
    && forall i :: 1 <= i < |nick| ==>
         RfcLetter(nick[i]) || RfcDigit(nick[i]) || RfcSpecial(nick[i]) || nick[i] == '-' || nick[i] == '\0'
  }

  /** What may be in a `user`, which the grammar wants to be non-empty and the code does not. */
  ghost predicate UserShape(user: string) {
    forall i :: 0 <= i < |user| ==>
      user[i] != '\0' && user[i] != '\n' && user[i] != '\r' && user[i] != ' ' && user[i] != '@'
  }

  /** `is_nick` is wider than the grammar in two ways: any length is a nickname, and NUL may be in one. */
  lemma NickIff(nick: string)
    ensures IsNick(nick) <==> NickShape(nick)
    ensures forall c: char :: (IsAlpha(c) <==> RfcLetter(c)) && (IsSpecial(c) <==> RfcSpecial(c))
    ensures RfcNick(nick) <==> IsNick(nick) && |nick| <= 9 && Free(nick, {NUL})
    ensures IsNick([NUL]) && IsNick("abcdefghij") && !RfcNick([NUL]) && !RfcNick("abcdefghij")
  {
  }

  predicate IsUser(user: string) {
    forall i :: 0 <= i < |user| ==> user[i] !in NOSPCRLFAT
  }

  function AllowNick(nick: string): string {
    if IsNick(nick) then nick else ""
  }

  function AllowUser(user: string): string {
    if IsUser(user) then user else ""
  }

  /** A nickname or a user is given exactly when it has its shape, and nothing otherwise. */
  lemma Allowed(nick: string, user: string)
    ensures AllowNick(nick) == if NickShape(nick) then nick else ""
    ensures AllowUser(user) == if UserShape(user) then user else ""
  {
    NickIff(nick);
  }

  /** `find`: the position of `c`, or the length for `npos`. */
  function Find(s: string, c: char): (n: nat)
    ensures n <= |s|
  {
    FindFirstOf(s, {c})
  }

  function ServerName(prefix: string): string {
    if Find(prefix, '!') < |prefix| || Find(prefix, '@') < |prefix| then "" else prefix
  }

  function Nickname(prefix: string): string {
    if Find(prefix, '!') < |prefix| then AllowNick(prefix[..Find(prefix, '!')])
    else if Find(prefix, '@') < |prefix| then AllowNick(prefix[..Find(prefix, '@')])
    else AllowNick(prefix)
  }

  function User(prefix: string): string {
    var end, beg := Find(prefix, '@'), Find(prefix, '!');
    if end < |prefix| && beg < end then AllowUser(prefix[beg + 1..end]) else ""
  }

  function Host(prefix: string): string {
    var pos := Find(prefix, '@');
    if pos < |prefix| && pos < |prefix| - 1 then prefix[pos + 1..] else ""
  }

  // ----- the class

  class Message {
    var line: string
    var prefix: string
    var command: string
    var params: string

    ghost function Abs(): Msg
      reads this
    {
      Msg(line, prefix, command, params)
    }

    constructor ()
      ensures Abs() == CLEARED
    {
      line, prefix, command, params := "", "", "", "";
    }

    /** `parse` */
    method Parse(text: string) returns (ok: bool)
      modifies this
      ensures (Abs(), ok) == ParseMsg(old(Abs()), text)
    {
      if text == "" {
        return false;
      }
      line := TrimRight(text);
      var iss := new CharStream(line);
      var p := iss.Peek();
      if p == Some(':') {
        iss.Ignore();
        prefix := iss.ReadWord(prefix);
      }
      ok := ParseCommand(iss);
    }

    /** Reads the command, a word, and then the rest of the line as the parameters. */
    method ParseCommand(iss: CharStream) returns (ok: bool)
      requires iss.Valid()
      modifies `command, `params, iss`pos, iss`eofbit, iss`failbit
      ensures (Abs(), ok) == ParseRest(old(Abs()), old(iss.Readable()))
    {
      command := iss.ReadWord(command);
      params := iss.GetLine(params, '\n');
      return !iss.failbit;
    }

    /** `get_params()` */
    method GetParams() returns (ps: seq<string>)
      ensures ps == Params(params)
    {
      var iss := new CharStream(params);
      var middles, trailing := MessageParams.GetParams(iss);
      ps := middles;
      if !iss.failbit {
        ps := ps + [trailing];
      }
    }

    /** `operator<<` */
    method Write(os: string) returns (out: string)
      ensures out == os + MsgText(Abs())
    {
      var s := Escape(line);
      out := os + "{" + s + "}";
      assert out == os + ("{" + s + "}");
    }

    /** `operator>>` */
    method Read(src: CharStream)
      requires src.Valid()
      modifies this, src`pos, src`eofbit, src`failbit
      ensures src.Valid()
      ensures src.Rest() == if old(src.Good()) then Unread(old(src.Rest())) else old(src.Rest())
      ensures match ReadMsg(old(src.Readable()), old(Abs()))
              case None => src.failbit && Abs() == old(Abs())
              case Some(got) =>
                Abs() == got.value.0 && src.failbit == !got.value.1
    {
      var o := GetObject(src, "");
      if src.failbit {
        return;
      }
      var text := Unescape(o);
      var ok := Parse(text);
      if !ok {
        src.SetFail();
      }
    }
  }

  // ----- the wire

  function MsgText(m: Msg): string {
    "{" + Escaped(m.line) + "}"
  }

  /** What is read into the message `m`, and whether it parsed. */
  function ReadMsg(t: string, m: Msg): Option<Taken<(Msg, bool)>> {
    match Object(t)
    case None => None
    case Some(got) => Some(Taken(ParseMsg(m, Unescaped(got.value)), got.rest))
  }
}
