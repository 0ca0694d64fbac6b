/**
  The escaping that keeps the delimiters `{`, `}` and `,` out of stored text: `escape` and `unescape`, four
  whole-string replacement passes each, and the one-pass encoding and decoding that they amount to.
 */
module Escapes {
  import opened Text

  // The delimiters and what each is written as.
  const ESCAPES: map<char, string> := map['\\' := "\\0", '{' := "\\1", '}' := "\\2", ',' := "\\3"]

  // The digit after a backslash and the delimiter that the pair stands for.
  const UNESCAPES: map<char, char> := map['0' := '\\', '1' := '{', '2' := '}', '3' := ',']

  /** One left-to-right pass replacing every character that `m` knows. */
  function Encode(s: string, m: map<char, string>): string {
    if s == "" then ""
    else (if s[0] in m then m[s[0]] else [s[0]]) + Encode(s[1..], m)
  }

  /** One left-to-right pass replacing every backslash followed by a digit that `m` knows. */
  function Decode(s: string, m: map<char, char>): string {
    if s == "" then ""
    else if |s| >= 2 && s[0] == '\\' && s[1] in m then [m[s[1]]] + Decode(s[2..], m)
    else [s[0]] + Decode(s[1..], m)
  }

  function Escaped(s: string): string {
    Encode(s, ESCAPES)
  }

  function Unescaped(s: string): string {
    Decode(s, UNESCAPES)
  }

  // ----- the passes

  /** Left-to-right replacement of non-overlapping occurrences, never looking at inserted text again. */
  function ReplaceAll(s: string, from: string, to: string): string
    requires from != ""
  {
    if |s| < |from| then s
    else if from <= s then to + ReplaceAll(s[|from|..], from, to)
    else [s[0]] + ReplaceAll(s[1..], from, to)
  }

  /** `hol::replace_all_mute`, rewriting its text from one position on. */
  method ReplaceAllMute(s: string, from: string, to: string) returns (t: string)
    requires from != ""
    ensures t == ReplaceAll(s, from, to)
  {
    t := s;
    var pos := 0;
    while pos + |from| <= |t|
      invariant 0 <= pos <= |t|
      invariant t[..pos] + ReplaceAll(t[pos..], from, to) == ReplaceAll(s, from, to)
      decreases |t| - pos
    {
      if t[pos..pos + |from|] == from {
        ReplaceHit(t, pos, from, to);
        t := t[..pos] + to + t[pos + |from|..];
        pos := pos + |to|;
      } else {
        ReplaceMiss(t, pos, from, to);
        pos := pos + 1;
      }
    }
  }

  lemma ReplaceHit(t: string, pos: nat, from: string, to: string)
    requires from != "" && pos + |from| <= |t| && t[pos..pos + |from|] == from
    ensures var u, next := t[..pos] + to + t[pos + |from|..], pos + |to|;
            u[..next] + ReplaceAll(u[next..], from, to) == t[..pos] + ReplaceAll(t[pos..], from, to)
  {
    var u, next := t[..pos] + to + t[pos + |from|..], pos + |to|;
    assert from <= t[pos..];
    assert u[..next] == t[..pos] + to;
    assert u[next..] == t[pos + |from|..] == t[pos..][|from|..];
    Assoc(t[..pos], to, ReplaceAll(u[next..], from, to));
  }

  lemma ReplaceMiss(t: string, pos: nat, from: string, to: string)
    requires from != "" && pos + |from| <= |t| && t[pos..pos + |from|] != from
    ensures t[..pos + 1] + ReplaceAll(t[pos + 1..], from, to) == t[..pos] + ReplaceAll(t[pos..], from, to)
  {
    assert t[pos..][..|from|] == t[pos..pos + |from|];
    assert t[..pos + 1] == t[..pos] + [t[pos]];
    assert t[pos + 1..] == t[pos..][1..];
    Assoc(t[..pos], [t[pos]], ReplaceAll(t[pos + 1..], from, to));
  }

  /** `escape`: its four passes are one character-by-character encoding. */
  method Escape(s: string) returns (t: string)
    ensures t == Escaped(s)
  {
    t := ReplaceAllMute(s, "\\", "\\0");
    EncodeNothing(s, map[]);
    EncodeNext(s, s, map[], '\\', "\\0");
    ghost var m1 := map['\\' := "\\0"];
    EncodeNext(s, t, m1, '{', "\\1");
    t := ReplaceAllMute(t, "{", "\\1");
    ghost var m2 := m1['{' := "\\1"];
    EncodeNext(s, t, m2, '}', "\\2");
    t := ReplaceAllMute(t, "}", "\\2");
    ghost var m3 := m2['}' := "\\2"];
    EncodeNext(s, t, m3, ',', "\\3");
    t := ReplaceAllMute(t, ",", "\\3");
    assert m3[',' := "\\3"] == ESCAPES;
  }

  /** `unescape`: its four passes are one left-to-right decoding, on every text. */
  method Unescape(s: string) returns (t: string)
    ensures t == Unescaped(s)
  {
    t := ReplaceAllMute(s, "\\3", ",");
    DecodeNothing(s);
    DecodeNext(s, s, map[], '3', ',');
    ghost var m1 := map['3' := ','];
    DecodeNext(s, t, m1, '2', '}');
    t := ReplaceAllMute(t, "\\2", "}");
    ghost var m2 := m1['2' := '}'];
    DecodeNext(s, t, m2, '1', '{');
    t := ReplaceAllMute(t, "\\1", "{");
    ghost var m3 := m2['1' := '{'];
    DecodeNext(s, t, m3, '0', '\\');
    t := ReplaceAllMute(t, "\\0", "\\");
    assert m3['0' := '\\'] == UNESCAPES;
  }

  /** One more pass of `escape`, when the passes so far encode with `m`. */
  lemma EncodeNext(s: string, t: string, m: map<char, string>, c: char, code: string)
    requires t == Encode(s, m) && c !in m
    requires forall k :: k in m ==> Free(m[k], {c})
    ensures ReplaceAll(t, [c], code) == Encode(s, m[c := code])
  {
    EncodePass(t, c, code);
    EncodeCompose(s, m, c, code);
  }

  /** One more pass of `unescape`, when the passes so far decode with `m`. */
  lemma DecodeNext(s: string, t: string, m: map<char, char>, d: char, c: char)
    requires t == Decode(s, m)
    requires d !in m && d != '\\' && '\\' !in m
    requires forall k :: k in m ==> m[k] != '\\' && m[k] != d
    ensures ReplaceAll(t, ['\\', d], [c]) == Decode(s, m[d := c])
  {
    DecodePass(t, d, c);
    DecodeCompose(s, m, d, c);
  }

  lemma {:induction false} DecodeNothing(s: string)
    ensures Decode(s, map[]) == s
  {
    if s == "" {
    } else {
      DecodeNothing(s[1..]);
    }
  }

  lemma {:induction false} EncodePass(s: string, c: char, code: string)
    ensures ReplaceAll(s, [c], code) == Encode(s, map[c := code])
  {
    if s == "" {
    } else {
      EncodePass(s[1..], c, code);
      assert [c] <= s <==> s[0] == c;
    }
  }

  lemma {:induction false} EncodeConcat(s: string, t: string, m: map<char, string>)
    ensures Encode(s + t, m) == Encode(s, m) + Encode(t, m)
  {
    if s == "" {
      assert s + t == t;
    } else {
      EncodeConcat(s[1..], t, m);
      TailConcat(s, t);
      Assoc(if s[0] in m then m[s[0]] else [s[0]], Encode(s[1..], m), Encode(t, m));
    }
  }

  lemma {:induction false} EncodeNothing(s: string, m: map<char, string>)
    requires Free(s, m.Keys)
    ensures Encode(s, m) == s
  {
    if s == "" {
    } else {
      EncodeNothing(s[1..], m);
    }
  }

  /** A further pass extends the table when it neither overrides nor touches what went before. */
  lemma {:induction false} EncodeCompose(s: string, m: map<char, string>, c: char, code: string)
    requires c !in m
    requires forall k :: k in m ==> Free(m[k], {c})
    ensures Encode(Encode(s, m), map[c := code]) == Encode(s, m[c := code])
  {
    if s == "" {
    } else {
      var head := if s[0] in m then m[s[0]] else [s[0]];
      EncodeConcat(head, Encode(s[1..], m), map[c := code]);
      EncodeCompose(s[1..], m, c, code);
      if s[0] in m {
        EncodeNothing(head, map[c := code]);
      }
    }
  }

  lemma {:induction false} DecodePass(s: string, d: char, c: char)
    ensures ReplaceAll(s, ['\\', d], [c]) == Decode(s, map[d := c])
    decreases |s|
  {
    if |s| >= 2 {
      assert ['\\', d] <= s <==> s[0] == '\\' && s[1] == d;
      DecodePass(s[2..], d, c);
      DecodePass(s[1..], d, c);
    }
  }

  /** A further pass extends the table when no earlier pass leaves a backslash or its digit behind. */
  lemma {:induction false} DecodeCompose(s: string, m: map<char, char>, d: char, c: char)
    requires d !in m && d != '\\' && '\\' !in m
    requires forall k :: k in m ==> m[k] != '\\' && m[k] != d
    ensures Decode(Decode(s, m), map[d := c]) == Decode(s, m[d := c])
    decreases |s|
  {
    if s == "" {
    } else if |s| >= 2 && s[0] == '\\' && s[1] in m {
      DecodeCompose(s[2..], m, d, c);
    } else if |s| >= 2 && s[0] == '\\' && s[1] == d {
      DecodeCompose(s[2..], m, d, c);
      assert Decode(s[1..], m) == [d] + Decode(s[2..], m);
      assert Decode(s, m)[2..] == Decode(s[2..], m);
    } else {
      DecodeCompose(s[1..], m, d, c);
      DecodeHead(s[1..], m);
    }
  }

  /** What a decoding starts with: the first character itself, or what an escape stands for. */
  lemma DecodeHead(s: string, m: map<char, char>)
    ensures Decode(s, m) == "" <==> s == ""
    ensures s != "" ==> Decode(s, m)[0] == s[0] || exists k :: k in m && Decode(s, m)[0] == m[k]
  {
  }

  // ----- what the encoding is for

  /** Escaped text never holds a delimiter, so that it can stand between delimiters. */
  lemma {:induction false} EscapedFree(s: string)
    ensures Free(Escaped(s), {'{', '}', ','})
    ensures Free(s, {'\n'}) ==> Free(Escaped(s), {'\n'})
  {
    if s == "" {
    } else {
      EscapedFree(s[1..]);
    }
  }

  /** Unescaping undoes escaping, for every text. */
  lemma {:induction false} UnescapeEscape(s: string)
    ensures Unescaped(Escaped(s)) == s
  {
    if s == "" {
    } else {
      UnescapeEscape(s[1..]);
      var head := if s[0] in ESCAPES then ESCAPES[s[0]] else [s[0]];
      assert Escaped(s)[|head|..] == Escaped(s[1..]);
      if s[0] in ESCAPES {
        assert Escaped(s)[0] == '\\' && Escaped(s)[1] == head[1];
      }
    }
  }

  /** Text in which every backslash starts an escape and every delimiter is escaped. */
  predicate IsEscaped(t: string) {
    if t == "" then true
    else if t[0] == '\\' then |t| >= 2 && t[1] in UNESCAPES && IsEscaped(t[2..])
    else t[0] !in ESCAPES && IsEscaped(t[1..])
  }

  /** The escaped texts are exactly those on which unescaping loses nothing. */
  lemma {:induction false} EscapeUnescape(t: string)
    ensures Escaped(Unescaped(t)) == t <==> IsEscaped(t)
    decreases |t|
  {
    if t == "" {
    } else if |t| >= 2 && t[0] == '\\' && t[1] in UNESCAPES {
      EscapeUnescape(t[2..]);
      var u := Unescaped(t);
      assert u[1..] == Unescaped(t[2..]);
      assert Escaped(u) == t[..2] + Escaped(u[1..]);
      assert t == t[..2] + t[2..];
    } else {
      EscapeUnescape(t[1..]);
      var u := Unescaped(t);
      assert u[1..] == Unescaped(t[1..]);
      if t[0] in ESCAPES {
        assert Escaped(u) == ESCAPES[t[0]] + Escaped(u[1..]);
      } else {
        assert Escaped(u) == [t[0]] + Escaped(u[1..]);
        assert t == [t[0]] + t[1..];
      }
    }
  }

  // ----- the encoding spelled out

  /** What each character of a text is written as. */
  ghost function Code(c: char): string {
    if c == '\\' then "\\0" else if c == '{' then "\\1" else if c == '}' then "\\2" else if c == ',' then "\\3" else [c]
  }

  lemma EscapedIs(c: char, s: string)
    ensures Escaped([c] + s) == Code(c) + Escaped(s) && Escaped("") == ""
  {
    assert ([c] + s)[1..] == s;
  }

  /** What each escape stands for; a backslash before anything else stands for itself. */
  lemma UnescapedIs(c: char, s: string)
    ensures Unescaped("") == "" && Unescaped("\\") == "\\"
    ensures c != '\\' ==> Unescaped([c] + s) == [c] + Unescaped(s)
    ensures Unescaped("\\" + [c] + s) ==
            if c == '0' then "\\" + Unescaped(s)
            else if c == '1' then "{" + Unescaped(s)
            else if c == '2' then "}" + Unescaped(s)
            else if c == '3' then "," + Unescaped(s)
            else "\\" + Unescaped([c] + s)
  {
    assert ([c] + s)[1..] == s;
    var t := "\\" + [c] + s;
    assert t[1..] == [c] + s && t[2..] == s;
    assert "\\"[1..] == "";
  }
}
