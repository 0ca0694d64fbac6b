/** `getobject`, which reads one group in balanced braces, and what it accepts in terms of brace balance. */
module Objects {
  import opened Text
  import opened CharStreams

  // ----- one balanced group

  /** What a reader took from the front of a text, and what it left. */
  datatype Taken<+T> = Taken(value: T, rest: string)

  /** Opening braces less closing braces. */
  function Net(s: string): int {
    if s == "" then 0
    else (if s[0] == '{' then 1 else if s[0] == '}' then -1 else 0) + Net(s[1..])
  }

  /** Every closing brace has its opening brace before it, and the other way round. */
  ghost predicate Balanced(s: string) {
    && Net(s) == 0
    && forall i :: 0 <= i <= |s| ==> Net(s[..i]) >= 0
  }

  /** The number of open groups after `c`. */
  function Nest(d: nat, c: char): nat
    requires d > 0
  {
    if c == '{' then d + 1 else if c == '}' then d - 1 else d
  }

  /** How much of `t` is read until `d` open groups are all closed, if they are. */
  function GroupEnd(t: string, d: nat): (n: Option<nat>)
    requires d > 0
    ensures n.Some? ==> 1 <= n.value <= |t| && t[n.value - 1] == '}'
  {
    if t == "" then None
    else if t[0] == '}' && d == 1 then Some(1)
    else
      Shift(GroupEnd(t[1..], Nest(d, t[0])), 1)
  }

  function Shift(n: Option<nat>, k: nat): Option<nat> {
    match n
    case None => None
    case Some(n) => Some(k + n)
  }

  /** The inside of the brace group that `t` starts with. */
  function Object(t: string): Option<Taken<string>> {
    if t == "" || t[0] != '{' then None
    else
      match GroupEnd(t[1..], 1)
      case None => None
      case Some(n) => Some(Taken(t[1..n], t[n + 1..]))
  }

  /** What is left of `t` by a reader of one group: all of it when there is none, nothing when it is not closed. */
  function Unread(t: string): string {
    match Object(t)
    case Some(got) => got.rest
    case None => if "{" <= t then "" else t
  }

  /** `obj` has been taken from the front of `t`, `r` is still to be read and `d` groups are open. */
  ghost predicate Reading(t: string, obj: string, r: string, d: nat) {
    if d > 0 then t == obj + r && GroupEnd(t, 1) == Shift(GroupEnd(r, d), |obj|)
    else t == obj + "}" + r && GroupEnd(t, 1) == Some(|obj| + 1)
  }

  lemma ReadingStep(t: string, obj: string, r: string, d: nat)
    requires Reading(t, obj, r, d) && d > 0 && r != ""
    ensures Reading(t, if Nest(d, r[0]) > 0 then obj + [r[0]] else obj, r[1..], Nest(d, r[0]))
  {
    assert r == [r[0]] + r[1..];
    assert obj + r == (obj + [r[0]]) + r[1..];
  }

  /** The loop of `getobject`, after the opening brace. */
  method ReadToClose(src: CharStream) returns (obj: string)
    requires src.Valid() && src.Good()
    modifies src`pos, src`eofbit, src`failbit
    ensures src.Valid()
    ensures match GroupEnd(old(src.Rest()), 1)
            case Some(n) =>
              src.Good() && obj == old(src.Rest())[..n - 1] && src.Rest() == old(src.Rest())[n..]
            case None =>
              src.failbit && src.eofbit && obj == old(src.Rest()) && src.Rest() == ""
  {
    ghost var t := src.Rest();
    var d := 1;
    obj := "";
    while d > 0
      invariant src.Valid() && src.Good()
      invariant Reading(t, obj, src.Rest(), d)
      decreases |src.Rest()|
    {
      ghost var before, objBefore, dBefore := src.Rest(), obj, d;
      var c := src.Get();
      if c == None {
        assert t == obj;
        return;
      }
      if c.value == '{' {
        d := d + 1;
      } else if c.value == '}' {
        d := d - 1;
      }
      if d > 0 {
        obj := obj + [c.value];
      }
      ReadingStep(t, objBefore, before, dBefore);
    }
    assert t[..|obj|] == obj && t[|obj| + 1..] == src.Rest();
  }

  /** `getobject`: depth-counting reader of one group. */
  method GetObject(src: CharStream, o: string) returns (obj: string)
    requires src.Valid()
    modifies src`pos, src`eofbit, src`failbit
    ensures src.Valid()
    ensures !old(src.Good()) ==> obj == o && src.failbit && src.Rest() == old(src.Rest())
    ensures old(src.Good()) ==>
              match Object(old(src.Rest()))
              case Some(got) => obj == got.value && src.Rest() == got.rest && src.Good()
              case None =>
                && src.failbit
                && (if "{" <= old(src.Rest())
                    then obj == old(src.Rest())[1..] && src.Rest() == "" && src.eofbit
                    else obj == o && src.Rest() == old(src.Rest()))
  {
    obj := o;
    var p := src.Peek();
    if p != Some('{') {
      src.SetFail();
    } else {
      src.Ignore();
      assert src.Rest() == old(src.Rest())[1..];
      obj := ReadToClose(src);
    }
  }

  lemma {:induction false} NetConcat(s: string, t: string)
    ensures Net(s + t) == Net(s) + Net(t)
  {
    if s == "" {
      assert s + t == t;
    } else {
      NetConcat(s[1..], t);
      TailConcat(s, t);
    }
  }

  lemma {:induction false} BalancedFree(s: string)
    requires Free(s, {'{', '}'})
    ensures Balanced(s)
  {
    if s == "" {
    } else {
      BalancedFree(s[1..]);
      forall i | 0 <= i <= |s| ensures Net(s[..i]) >= 0 {
        if i > 0 {
          assert s[..i][1..] == s[1..][..i - 1];
        }
      }
    }
  }

  lemma BalancedConcat(s: string, t: string)
    requires Balanced(s) && Balanced(t)
    ensures Balanced(s + t)
  {
    NetConcat(s, t);
    forall i | 0 <= i <= |s + t| ensures Net((s + t)[..i]) >= 0 {
      if i <= |s| {
        assert (s + t)[..i] == s[..i];
      } else {
        assert (s + t)[..i] == s + t[..i - |s|];
        NetConcat(s, t[..i - |s|]);
      }
    }
  }

  lemma BalancedGroup(s: string)
    requires Balanced(s)
    ensures Balanced("{" + s + "}")
  {
    var g := "{" + s + "}";
    NetConcat("{" + s, "}");
    NetConcat("{", s);
    forall i | 0 <= i <= |g| ensures Net(g[..i]) >= 0 {
      if 0 < i < |g| {
        assert g[..i] == "{" + s[..i - 1];
        NetConcat("{", s[..i - 1]);
      } else {
        assert g[..i] == (if i == 0 then "" else g);
      }
    }
  }

  /** The depth counter stops exactly where the brace balance of what was read first reaches `-d`. */
  lemma {:induction false} GroupEndIff(t: string, d: nat, n: nat)
    requires d > 0
    ensures GroupEnd(t, d) == Some(n) <==> ClosesAt(t, d, n)
  {
    if t == "" {
    } else {
      NetPrefixes(t);
      if t[0] == '}' && d == 1 {
        assert n > 1 && n <= |t| ==> d + Net(t[..1]) == 0;
      } else if n > 1 {
        GroupEndIff(t[1..], Nest(d, t[0]), n - 1);
        ClosesNext(t, d, n);
      }
    }
  }

  /** Reading `n` characters from depth `d` ends at a closing brace and stays inside until then. */
  ghost predicate ClosesAt(t: string, d: nat, n: nat) {
    && 1 <= n <= |t| && t[n - 1] == '}'
    && d + Net(t[..n - 1]) == 1
    && forall i :: 0 <= i < n ==> d + Net(t[..i]) >= 1
  }

  /** The net count of a prefix, by its first character. */
  lemma NetPrefixes(t: string)
    requires t != ""
    ensures t[..0] == "" && Net(t[..0]) == 0
    ensures forall i :: 1 <= i <= |t| ==> Net(t[..i]) == Nest(1, t[0]) - 1 + Net(t[1..][..i - 1])
  {
    forall i | 1 <= i <= |t| ensures Net(t[..i]) == Nest(1, t[0]) - 1 + Net(t[1..][..i - 1]) {
      assert t[..i][1..] == t[1..][..i - 1];
    }
  }

  lemma ClosesNext(t: string, d: nat, n: nat)
    requires t != "" && d > 0 && n > 1 && Nest(d, t[0]) > 0
    ensures ClosesAt(t, d, n) <==> ClosesAt(t[1..], Nest(d, t[0]), n - 1)
  {
    var u, e := t[1..], Nest(d, t[0]);
    NetPrefixes(t);
    assert n <= |t| ==> u[n - 2] == t[n - 1];
    if ClosesAt(t, d, n) {
      forall i | 0 <= i < n - 1 ensures e + Net(u[..i]) >= 1 {
        assert d + Net(t[..i + 1]) >= 1;
      }
    }
    if ClosesAt(u, e, n - 1) {
      forall i | 0 <= i < n ensures d + Net(t[..i]) >= 1 {
        assert i > 0 ==> e + Net(u[..i - 1]) >= 1;
      }
    }
  }

  /** A text that starts with a group, by its parts. */
  lemma GroupText(t: string, o: string, rest: string)
    ensures t == "{" + o + "}" + rest <==>
            && |t| >= |o| + 2 && t[0] == '{' && t[|o| + 1] == '}'
            && t[1..|o| + 1] == o && t[|o| + 2..] == rest
  {
    if |t| >= |o| + 2 && t[0] == '{' && t[|o| + 1] == '}' {
      assert t == "{" + t[1..|o| + 1] + "}" + t[|o| + 2..];
    }
    var g := "{" + o + "}" + rest;
    assert g[1..|o| + 1] == o && g[|o| + 2..] == rest;
  }

  /** A closing brace is the one that ends the group exactly when what precedes it is balanced. */
  lemma ClosesBalanced(u: string, o: string)
    requires |u| > |o| && u[..|o|] == o && u[|o|] == '}'
    ensures ClosesAt(u, 1, |o| + 1) <==> Balanced(o)
  {
    assert forall i :: 0 <= i <= |o| ==> u[..i] == o[..i];
    assert o[..|o|] == o;
  }

  /** A group is read from `t` exactly when `t` is that balanced group in braces and then the rest. */
  lemma ObjectIff(t: string, o: string, rest: string)
    ensures Object(t) == Some(Taken(o, rest)) <==> t == "{" + o + "}" + rest && Balanced(o)
  {
    GroupText(t, o, rest);
    if t != "" && t[0] == '{' {
      var u := t[1..];
      GroupEndIff(u, 1, |o| + 1);
      if |t| >= |o| + 2 && t[1..|o| + 1] == o && t[|o| + 1] == '}' {
        assert u[..|o|] == t[1..|o| + 1] && u[|o|] == t[|o| + 1];
        ClosesBalanced(u, o);
      }
    }
  }

  /** No group is read exactly when no prefix of the text is a balanced group. */
  lemma ObjectNone(t: string)
    ensures Object(t) == None <==> forall o, rest :: t == "{" + o + "}" + rest ==> !Balanced(o)
  {
    if Object(t) == None {
      forall o, rest | t == "{" + o + "}" + rest ensures !Balanced(o) {
        ObjectIff(t, o, rest);
      }
    } else {
      var got := Object(t).value;
      ObjectIff(t, got.value, got.rest);
    }
  }
}
