/**
  The text format of containers, pairs and maps of strings: writers that escape every element, readers that
  are built on `getobject`, and the exact condition under which a reader gives back what was written.
 */
module Containers {
  import opened Text
  import opened CharStreams
  import opened Escapes
  import opened Objects

  /** What `getline` takes from the front of a text. */
  function FirstLine(s: string): string {
    s[..FindFirstOf(s, {'\n'})]
  }

  ghost predicate OneLine(s: string) {
    Free(s, {'\n'})
  }

  lemma FirstLineIff(s: string)
    ensures OneLine(FirstLine(s))
    ensures FirstLine(s) == s <==> OneLine(s)
  {
    assert s[..|s|] == s;
  }

  /** What follows the first line break is lost. */
  lemma FirstLineCut(s: string, t: string)
    requires OneLine(s)
    ensures FirstLine(s + ("\n" + t)) == s
  {
    FindFirstOfAt(s, "\n" + t, {'\n'});
    assert (s + ("\n" + t))[..|s|] == s;
  }

  lemma {:induction false} FirstLineEscaped(s: string)
    ensures FirstLine(Escaped(s)) == Escaped(FirstLine(s))
  {
    if s == "" {
    } else {
      FirstLineEscaped(s[1..]);
      var head := if s[0] in ESCAPES then ESCAPES[s[0]] else [s[0]];
      assert Escaped(s) == head + Escaped(s[1..]);
      assert s == [s[0]] + s[1..];
      if s[0] != '\n' {
        FirstLineAfter(head, Escaped(s[1..]));
        FirstLineAfter([s[0]], s[1..]);
      }
    }
  }

  /** The first line of a text is not cut inside a front that has no line break. */
  lemma FirstLineAfter(s: string, t: string)
    requires Free(s, {'\n'})
    ensures FirstLine(s + t) == s + FirstLine(t)
  {
    var n := FindFirstOf(t, {'\n'});
    assert s + t == (s + t[..n]) + t[n..];
    FreeConcat(s, t[..n], {'\n'});
    FindFirstOfAt(s + t[..n], t[n..], {'\n'});
  }

  // ----- containers

  /** The elements of a container, each escaped and in braces of its own. */
  function Elements(items: seq<string>): string {
    if items == [] then ""
    else "{" + Escaped(FirstLine(items[0])) + "}" + Elements(items[1..])
  }

  /** The text of a whole container. */
  function ContainerText(items: seq<string>): string {
    "{" + Elements(items) + "}"
  }

  lemma NextElement(out: string, items: seq<string>, k: nat)
    requires k < |items|
    ensures out + Elements(items[k..]) ==
            out + "{" + Escaped(FirstLine(items[k])) + "}" + Elements(items[k + 1..])
  {
    assert items[k..][1..] == items[k + 1..];
  }

  /** `write_container`: `items` in iteration order. Each element passes through `getline` and `escape`. */
  method WriteContainer(os: string, items: seq<string>) returns (out: string)
    ensures out == os + ContainerText(items)
  {
    out := os + "{";
    var s := "";
    for k := 0 to |items|
      invariant out + Elements(items[k..]) == os + "{" + Elements(items)
    {
      var ss := new CharStream(items[k]);
      s := ss.GetLine(s, '\n');
      assert s == FirstLine(items[k]);
      s := Escape(s);
      NextElement(out, items, k);
      out := out + "{" + s + "}";
    }
    assert items[|items|..] == [];
    assert out == os + "{" + Elements(items);
    out := out + "}";
    assert out == os + ("{" + Elements(items) + "}");
  }

  /** `extract` on a string: one line, unescaped when there was anything to read. */
  method Extract(src: CharStream, s: string) returns (t: string)
    requires src.Valid() && src.Good()
    modifies src`pos, src`eofbit, src`failbit
    ensures t == Unescaped(FirstLine(old(src.Rest())))
  {
    t := src.GetLine(s, '\n');
    if !src.failbit {
      t := Unescape(t);
    }
  }

  /** The elements that successive calls of `getobject` take from `t`, until one fails. */
  function ItemsOf(t: string): seq<string>
    decreases |t|
  {
    match Object(t)
    case None => []
    case Some(got) => [Unescaped(FirstLine(got.value))] + ItemsOf(got.rest)
  }

  lemma ItemsStep(t: string)
    ensures Object(t).None? ==> ItemsOf(t) == []
    ensures Object(t).Some? ==>
              ItemsOf(t) == [Unescaped(FirstLine(Object(t).value.value))] + ItemsOf(Object(t).value.rest)
  {
  }

  /** What `read_container` gives. */
  function ReadItems(t: string): Option<Taken<seq<string>>> {
    match Object(t)
    case None => None
    case Some(got) => Some(Taken(ItemsOf(got.value), got.rest))
  }

  /** `read_container`: the values inserted, in order. */
  method ReadContainer(src: CharStream) returns (items: seq<string>)
    requires src.Valid()
    modifies src`pos, src`eofbit, src`failbit
    ensures src.Valid()
    ensures match ReadItems(old(src.Readable()))
            case Some(got) => items == got.value && src.Good()
            case None => items == [] && src.failbit
    ensures src.Rest() == if old(src.Good()) then Unread(old(src.Rest())) else old(src.Rest())
  {
    items := [];
    var line := GetObject(src, "");
    if src.failbit {
      return;
    }
    var iss := new CharStream(line);
    items := ReadElements(iss, line);
  }

  /** The loop of `read_container`. */
  method ReadElements(iss: CharStream, line0: string) returns (items: seq<string>)
    requires iss.Valid() && iss.Good()
    modifies iss`pos, iss`eofbit, iss`failbit
    ensures items == ItemsOf(old(iss.Rest()))
  {
    items := [];
    var line := line0;
    while true
      invariant iss.Valid() && iss.Good()
      invariant items + ItemsOf(iss.Rest()) == ItemsOf(old(iss.Rest()))
      decreases |iss.Rest()|
    {
      ItemsStep(iss.Rest());
      line := GetObject(iss, line);
      if iss.failbit {
        return;
      }
      var ss := new CharStream(line);
      var t := Extract(ss, "");
      Assoc(items, [t], ItemsOf(iss.Rest()));
      items := items + [t];
    }
  }

  function FirstLines(items: seq<string>): seq<string> {
    seq(|items|, i requires 0 <= i < |items| => FirstLine(items[i]))
  }

  lemma FreeGroup(s: string, rest: string)
    requires Free(s, {'{', '}'})
    ensures Object("{" + s + "}" + rest) == Some(Taken(s, rest))
  {
    BalancedFree(s);
    ObjectIff("{" + s + "}" + rest, s, rest);
  }

  lemma EscapedGroup(s: string)
    ensures Free(Escaped(s), {'{', '}'})
    ensures Balanced("{" + Escaped(s) + "}")
  {
    EscapedFree(s);
    BalancedFree(Escaped(s));
    BalancedGroup(Escaped(s));
  }

  lemma {:induction false} ElementsBalanced(items: seq<string>)
    ensures Balanced(Elements(items))
  {
    if items == [] {
    } else {
      ElementsBalanced(items[1..]);
      EscapedGroup(FirstLine(items[0]));
      BalancedConcat("{" + Escaped(FirstLine(items[0])) + "}", Elements(items[1..]));
    }
  }

  lemma ElementRead(x: string, rest: string)
    ensures ItemsOf("{" + Escaped(FirstLine(x)) + "}" + rest) == [FirstLine(x)] + ItemsOf(rest)
  {
    var s := FirstLine(x);
    EscapedGroup(s);
    FreeGroup(Escaped(s), rest);
    FirstLineIff(x);
    EscapedFree(s);
    FirstLineIff(Escaped(s));
    UnescapeEscape(s);
    ItemsStep("{" + Escaped(s) + "}" + rest);
  }

  lemma FirstLinesTail(items: seq<string>)
    requires items != []
    ensures FirstLines(items) == [FirstLine(items[0])] + FirstLines(items[1..])
  {
  }

  lemma {:induction false} ItemsOfElements(items: seq<string>)
    ensures ItemsOf(Elements(items)) == FirstLines(items)
  {
    if items == [] {
    } else {
      ElementRead(items[0], Elements(items[1..]));
      ItemsOfElements(items[1..]);
      FirstLinesTail(items);
    }
  }

  /**
    Reading a written container consumes exactly its text and gives the first line of every element, so
    the container itself exactly when no element has a line break.
   */
  lemma ContainerRoundTrip(items: seq<string>, rest: string)
    ensures ReadItems(ContainerText(items) + rest) == Some(Taken(FirstLines(items), rest))
    ensures FirstLines(items) == items <==> forall i :: 0 <= i < |items| ==> OneLine(items[i])
  {
    ElementsBalanced(items);
    ObjectIff(ContainerText(items) + rest, Elements(items), rest);
    ItemsOfElements(items);
    forall i | 0 <= i < |items| ensures FirstLine(items[i]) == items[i] <==> OneLine(items[i]) {
      FirstLineIff(items[i]);
    }
    if FirstLines(items) == items {
      assert forall i :: 0 <= i < |items| ==> FirstLines(items)[i] == items[i];
    }
  }

  lemma {:induction false} ItemsThenJunk(items: seq<string>, junk: string)
    requires junk == "" || junk[0] != '{'
    ensures ItemsOf(Elements(items) + junk) == FirstLines(items)
  {
    if items == [] {
      assert Elements(items) + junk == junk;
      ItemsStep(junk);
    } else {
      var group := "{" + Escaped(FirstLine(items[0])) + "}";
      Assoc(group, Elements(items[1..]), junk);
      ElementRead(items[0], Elements(items[1..]) + junk);
      ItemsThenJunk(items[1..], junk);
      FirstLinesTail(items);
    }
  }

  /** Reading ends at the first thing that is not a group, and passes over the rest of the container. */
  lemma ContainerStops(items: seq<string>, junk: string, rest: string)
    requires Balanced(junk) && (junk == "" || junk[0] != '{')
    ensures ReadItems("{" + (Elements(items) + junk) + "}" + rest) == Some(Taken(FirstLines(items), rest))
  {
    ElementsBalanced(items);
    BalancedConcat(Elements(items), junk);
    ObjectIff("{" + (Elements(items) + junk) + "}" + rest, Elements(items) + junk, rest);
    ItemsThenJunk(items, junk);
  }

  /** An element of two lines comes back as its first. */
  lemma ContainerLoses(rest: string)
    ensures ReadItems(ContainerText(["a\nb"]) + rest) == Some(Taken(["a"], rest))
  {
    ContainerRoundTrip(["a\nb"], rest);
    TwoLines();
    assert FirstLines(["a\nb"]) == ["a"];
  }

  lemma TwoLines()
    ensures FirstLine("a\nb") == "a"
  {
    assert "a" + "\nb" == "a\nb";
    FindFirstOfAt("a", "\nb", {'\n'});
  }

  function Elems(items: seq<string>): set<string> {
    set x | x in items
  }

  /** The same for a set, whatever order its elements are written in. */
  lemma SetRoundTrip(s: set<string>, items: seq<string>, rest: string)
    requires Elems(items) == s
    ensures ReadItems(ContainerText(items) + rest).Some?
    ensures var got := ReadItems(ContainerText(items) + rest).value;
            got.rest == rest && (Elems(got.value) == s <==> forall x :: x in s ==> OneLine(x))
  {
    ContainerRoundTrip(items, rest);
    var back := FirstLines(items);
    if Elems(back) == s {
      forall x | x in s ensures OneLine(x) {
        var i :| 0 <= i < |back| && back[i] == x;
        FirstLineIff(items[i]);
      }
    }
    if forall x :: x in s ==> OneLine(x) {
      forall i | 0 <= i < |items| ensures OneLine(items[i]) {
        assert items[i] in Elems(items);
      }
    }
  }

  // ----- pairs and maps

  /** `operator<<` of a pair: unlike container elements, its parts are escaped whole. */
  function PairText(p: Pair): string {
    "{{" + Escaped(p.0) + "}{" + Escaped(p.1) + "}}"
  }

  method WritePair(os: string, p: Pair) returns (out: string)
    ensures out == os + PairText(p)
  {
    var key := Escape(p.0);
    var val := Escape(p.1);
    out := os + "{{" + key + "}{" + val + "}}";
    assert out == os + ("{{" + key + "}{" + val + "}}");
  }

  function ReadPairAt(t: string): Option<Taken<Pair>> {
    match Object(t)
    case None => None
    case Some(got) =>
      match Object(got.value)
      case None => None
      case Some(key) =>
        match Object(key.rest)
        case None => None
        case Some(val) =>
          Some(Taken((Unescaped(FirstLine(key.value)), Unescaped(FirstLine(val.value))), got.rest))
  }

  /** `operator>>` of a pair. */
  method ReadPair(src: CharStream, p: Pair) returns (q: Pair)
    requires src.Valid()
    modifies src`pos, src`eofbit, src`failbit
    ensures src.Valid()
    ensures match ReadPairAt(old(src.Readable()))
            case Some(got) => q == got.value && src.Good()
            case None => q == p && src.failbit
    ensures src.Rest() == if old(src.Good()) then Unread(old(src.Rest())) else old(src.Rest())
  {
    q := p;
    var line := GetObject(src, "");
    if src.failbit {
      return;
    }
    var iss := new CharStream(line);
    var key := GetObject(iss, "");
    var val := GetObject(iss, "");
    if iss.failbit {
      src.SetFail();
      return;
    }
    iss.Reset(key);
    var first := Extract(iss, q.0);
    iss.Reset(val);
    var second := Extract(iss, q.1);
    q := (first, second);
  }

  lemma PairObject(p: Pair, rest: string)
    ensures Balanced(PairText(p))
    ensures ReadPairAt(PairText(p) + rest) == Some(Taken((FirstLine(p.0), FirstLine(p.1)), rest))
  {
    var k, v := Escaped(p.0), Escaped(p.1);
    EscapedGroup(p.0);
    EscapedGroup(p.1);
    var inner := ("{" + k + "}") + ("{" + v + "}");
    BalancedConcat("{" + k + "}", "{" + v + "}");
    BalancedGroup(inner);
    assert PairText(p) == "{" + inner + "}";
    ObjectIff(PairText(p) + rest, inner, rest);
    FreeGroup(k, "{" + v + "}");
    FreeGroup(v, "");
    assert "{" + v + "}" + "" == "{" + v + "}";
    assert inner == "{" + k + "}" + ("{" + v + "}");
    FirstLineEscaped(p.0);
    FirstLineEscaped(p.1);
    UnescapeEscape(FirstLine(p.0));
    UnescapeEscape(FirstLine(p.1));
  }

  /** A pair as it stands in a text: two groups of balanced text, and anything balanced before the end. */
  ghost predicate PairAt(t: string, k: string, v: string, junk: string, rest: string) {
    && t == "{" + (("{" + k + "}") + (("{" + v + "}") + junk)) + "}" + rest
    && Balanced(k) && Balanced(v)
    && Balanced(("{" + k + "}") + (("{" + v + "}") + junk))
  }

  /** A pair is read exactly where one stands, and from nothing else; what follows its two groups is dropped. */
  lemma PairIff(t: string)
    ensures ReadPairAt(t).None? <==> forall k, v, junk, rest :: !PairAt(t, k, v, junk, rest)
    ensures forall k, v, junk, rest :: PairAt(t, k, v, junk, rest) ==>
              ReadPairAt(t) == Some(Taken((Unescaped(FirstLine(k)), Unescaped(FirstLine(v))), rest))
  {
    forall k, v, junk, rest | PairAt(t, k, v, junk, rest)
      ensures ReadPairAt(t) == Some(Taken((Unescaped(FirstLine(k)), Unescaped(FirstLine(v))), rest))
    {
      PairFound(t, k, v, junk, rest);
    }
    if ReadPairAt(t).Some? {
      var o := Object(t).value;
      var key := Object(o.value).value;
      var val := Object(key.rest).value;
      ObjectIff(t, o.value, o.rest);
      ObjectIff(o.value, key.value, key.rest);
      ObjectIff(key.rest, val.value, val.rest);
      assert PairAt(t, key.value, val.value, val.rest, o.rest);
    }
  }

  lemma PairFound(t: string, k: string, v: string, junk: string, rest: string)
    requires PairAt(t, k, v, junk, rest)
    ensures ReadPairAt(t) == Some(Taken((Unescaped(FirstLine(k)), Unescaped(FirstLine(v))), rest))
  {
    var second := "{" + v + "}" + junk;
    var inner := "{" + k + "}" + second;
    assert inner == ("{" + k + "}") + (("{" + v + "}") + junk);
    ObjectIff(t, inner, rest);
    ObjectIff(inner, k, second);
    ObjectIff(second, v, junk);
  }

  /** Reading a written pair gives the pair itself exactly when neither part has a line break. */
  lemma PairRoundTrip(p: Pair, rest: string)
    ensures ReadPairAt(PairText(p) + rest) == Some(Taken(p, rest)) <==> OneLine(p.0) && OneLine(p.1)
  {
    PairObject(p, rest);
    FirstLineIff(p.0);
    FirstLineIff(p.1);
  }

  /** A pair with a key of two lines comes back with the first of them. */
  lemma PairLoses(rest: string)
    ensures ReadPairAt(PairText(("a\nb", "c")) + rest) == Some(Taken(("a", "c"), rest))
  {
    PairObject(("a\nb", "c"), rest);
    TwoLines();
    FirstLineIff("c");
  }

  function PairTexts(ps: seq<Pair>): string {
    if ps == [] then "" else PairText(ps[0]) + PairTexts(ps[1..])
  }

  function MapText(ps: seq<Pair>): string {
    "{" + PairTexts(ps) + "}"
  }

  /** `operator<<` of a map, given its pairs in iteration order. */
  method WriteMap(os: string, ps: seq<Pair>) returns (out: string)
    ensures out == os + MapText(ps)
  {
    out := os + "{";
    for k := 0 to |ps|
      invariant out + PairTexts(ps[k..]) == os + "{" + PairTexts(ps)
    {
      assert ps[k..][1..] == ps[k + 1..];
      assert out + (PairText(ps[k]) + PairTexts(ps[k + 1..])) == (out + PairText(ps[k])) + PairTexts(ps[k + 1..]);
      out := WritePair(out, ps[k]);
    }
    assert ps[|ps|..] == [];
    assert out == os + "{" + PairTexts(ps);
    out := out + "}";
    assert out == os + ("{" + PairTexts(ps) + "}");
  }

  /** `std::map::insert`: an entry that is already there stays. */
  function Insert(m: map<string, string>, p: Pair): map<string, string> {
    if p.0 in m then m else m[p.0 := p.1]
  }

  /** The map after inserting the pairs that successive reads take from `t`, until one fails. */
  function PairsInto(m: map<string, string>, t: string): map<string, string>
    decreases |t|
  {
    match ReadPairAt(t)
    case None => m
    case Some(got) => PairsInto(Insert(m, got.value), got.rest)
  }

  lemma PairsStep(m: map<string, string>, t: string)
    ensures ReadPairAt(t).None? ==> PairsInto(m, t) == m
    ensures ReadPairAt(t).Some? ==>
              && PairsInto(m, t) == PairsInto(Insert(m, ReadPairAt(t).value.value), ReadPairAt(t).value.rest)
              && |ReadPairAt(t).value.rest| < |t|
  {
  }

  function ReadMapAt(t: string): Option<Taken<map<string, string>>> {
    match Object(t)
    case None => None
    case Some(got) => Some(Taken(PairsInto(map[], got.value), got.rest))
  }

  /** `operator>>` of a map: the map is emptied only once its group has been read. */
  method ReadMap(src: CharStream, m: map<string, string>) returns (n: map<string, string>)
    requires src.Valid()
    modifies src`pos, src`eofbit, src`failbit
    ensures src.Valid()
    ensures match ReadMapAt(old(src.Readable()))
            case Some(got) => n == got.value && src.Good()
            case None => n == m && src.failbit
    ensures src.Rest() == if old(src.Good()) then Unread(old(src.Rest())) else old(src.Rest())
  {
    n := m;
    var line := GetObject(src, "");
    if src.failbit {
      return;
    }
    n := map[];
    var iss := new CharStream(line);
    var p := ("", "");
    while true
      invariant iss.Valid() && iss.Good() && fresh(iss)
      invariant PairsInto(n, iss.Rest()) == PairsInto(map[], line)
      modifies iss
      decreases |iss.Rest()|
    {
      PairsStep(n, iss.Rest());
      p := ReadPair(iss, p);
      if iss.failbit {
        return;
      }
      n := Insert(n, p);
    }
  }

  /** All pairs of `ps` inserted in order. */
  function InsertAll(m: map<string, string>, ps: seq<Pair>): map<string, string>
    decreases ps
  {
    if ps == [] then m else InsertAll(Insert(m, ps[0]), ps[1..])
  }

  function FirstLinePair(p: Pair): Pair {
    (FirstLine(p.0), FirstLine(p.1))
  }

  function FirstLinePairs(ps: seq<Pair>): seq<Pair> {
    seq(|ps|, i requires 0 <= i < |ps| => FirstLinePair(ps[i]))
  }

  lemma {:induction false} PairTextsBalanced(ps: seq<Pair>)
    ensures Balanced(PairTexts(ps))
  {
    if ps == [] {
    } else {
      PairTextsBalanced(ps[1..]);
      PairObject(ps[0], "");
      BalancedConcat(PairText(ps[0]), PairTexts(ps[1..]));
    }
  }

  lemma PairsIntoStep(m: map<string, string>, p: Pair, rest: string)
    ensures PairsInto(m, PairText(p) + rest) == PairsInto(Insert(m, FirstLinePair(p)), rest)
  {
    PairObject(p, rest);
    PairsStep(m, PairText(p) + rest);
  }

  lemma FirstLinePairsTail(ps: seq<Pair>)
    requires ps != []
    ensures FirstLinePairs(ps)[0] == FirstLinePair(ps[0])
    ensures FirstLinePairs(ps)[1..] == FirstLinePairs(ps[1..])
  {
  }

  lemma {:induction false} PairTextsRead(m: map<string, string>, ps: seq<Pair>)
    ensures PairsInto(m, PairTexts(ps)) == InsertAll(m, FirstLinePairs(ps))
    decreases ps
  {
    if ps == [] {
    } else {
      PairsIntoStep(m, ps[0], PairTexts(ps[1..]));
      PairTextsRead(Insert(m, FirstLinePair(ps[0])), ps[1..]);
      FirstLinePairsTail(ps);
    }
  }

  lemma MapRead(ps: seq<Pair>, rest: string)
    ensures ReadMapAt(MapText(ps) + rest) == Some(Taken(InsertAll(map[], FirstLinePairs(ps)), rest))
  {
    PairTextsBalanced(ps);
    ObjectIff(MapText(ps) + rest, PairTexts(ps), rest);
    PairTextsRead(map[], ps);
  }

  /** Of two pairs with one key, the first stays. */
  lemma {:induction false} FirstStays(m: map<string, string>, ps: seq<Pair>, i: nat)
    requires i < |ps| && ps[i].0 !in m
    requires forall j :: 0 <= j < i ==> ps[j].0 != ps[i].0
    ensures ps[i].0 in InsertAll(m, ps) && InsertAll(m, ps)[ps[i].0] == ps[i].1
    decreases ps
  {
    if i == 0 {
      InsertAllLists(Insert(m, ps[0]), ps[1..]);
    } else {
      assert forall j :: 0 <= j < i - 1 ==> ps[1..][j] == ps[j + 1];
      FirstStays(Insert(m, ps[0]), ps[1..], i - 1);
    }
  }

  lemma {:induction false} PairsThenJunk(m: map<string, string>, ps: seq<Pair>, junk: string)
    requires ReadPairAt(junk).None?
    ensures PairsInto(m, PairTexts(ps) + junk) == InsertAll(m, FirstLinePairs(ps))
    decreases ps
  {
    if ps == [] {
      assert PairTexts(ps) + junk == junk;
      PairsStep(m, junk);
    } else {
      Assoc(PairText(ps[0]), PairTexts(ps[1..]), junk);
      PairsIntoStep(m, ps[0], PairTexts(ps[1..]) + junk);
      PairsThenJunk(Insert(m, FirstLinePair(ps[0])), ps[1..], junk);
      FirstLinePairsTail(ps);
    }
  }

  /** A map ends at the first thing that is not a pair, and the rest of its group is passed over. */
  lemma MapStops(ps: seq<Pair>, junk: string, rest: string)
    requires Balanced(junk) && ReadPairAt(junk).None?
    ensures ReadMapAt("{" + (PairTexts(ps) + junk) + "}" + rest) ==
            Some(Taken(InsertAll(map[], FirstLinePairs(ps)), rest))
  {
    PairTextsBalanced(ps);
    BalancedConcat(PairTexts(ps), junk);
    ObjectIff("{" + (PairTexts(ps) + junk) + "}" + rest, PairTexts(ps) + junk, rest);
    PairsThenJunk(map[], ps, junk);
  }

  ghost predicate Lists(ps: seq<Pair>, m: map<string, string>) {
    && (forall i :: 0 <= i < |ps| ==> ps[i].0 in m && m[ps[i].0] == ps[i].1)
    && (forall k :: k in m ==> exists i :: 0 <= i < |ps| && ps[i].0 == k)
  }

  lemma {:induction false} InsertAllLists(m: map<string, string>, ps: seq<Pair>)
    ensures forall k :: k in m ==> k in InsertAll(m, ps) && InsertAll(m, ps)[k] == m[k]
    ensures forall k :: k in InsertAll(m, ps) && k !in m ==>
              exists i :: 0 <= i < |ps| && ps[i] == (k, InsertAll(m, ps)[k])
    ensures forall i :: 0 <= i < |ps| ==> ps[i].0 in InsertAll(m, ps)
    decreases ps
  {
    if ps == [] {
    } else {
      var m' := Insert(m, ps[0]);
      InsertAllLists(m', ps[1..]);
      forall k | k in InsertAll(m, ps) && k !in m
        ensures exists i :: 0 <= i < |ps| && ps[i] == (k, InsertAll(m, ps)[k])
      {
        if k in m' {
          assert ps[0] == (k, InsertAll(m, ps)[k]);
        } else {
          var i :| 0 <= i < |ps[1..]| && ps[1..][i] == (k, InsertAll(m', ps[1..])[k]);
          assert ps[i + 1] == (k, InsertAll(m, ps)[k]);
        }
      }
      forall i | 0 <= i < |ps| ensures ps[i].0 in InsertAll(m, ps) {
        if i > 0 {
          assert ps[1..][i - 1] == ps[i];
        }
      }
    }
  }

  /**
    A map written in any order of its pairs reads back as an equal map, consuming exactly its text, exactly
    when no key and no value has a line break.
   */
  lemma MapRoundTrip(m: map<string, string>, ps: seq<Pair>, rest: string)
    requires Lists(ps, m)
    ensures ReadMapAt(MapText(ps) + rest).Some? && ReadMapAt(MapText(ps) + rest).value.rest == rest
    ensures ReadMapAt(MapText(ps) + rest).value.value == m <==>
            forall k :: k in m ==> OneLine(k) && OneLine(m[k])
  {
    MapRead(ps, rest);
    FirstLinePairsIff(m, ps);
  }

  lemma FirstLinePairsIff(m: map<string, string>, ps: seq<Pair>)
    requires Lists(ps, m)
    ensures InsertAll(map[], FirstLinePairs(ps)) == m <==> forall k :: k in m ==> OneLine(k) && OneLine(m[k])
  {
    if InsertAll(map[], FirstLinePairs(ps)) == m {
      InsertAllLists(map[], FirstLinePairs(ps));
      FromFirstLines(m, ps);
    }
    if forall k :: k in m ==> OneLine(k) && OneLine(m[k]) {
      OneLinePairs(m, ps);
      ListsAgree(m, InsertAll(map[], FirstLinePairs(ps)), ps);
    }
  }

  lemma FromFirstLines(m: map<string, string>, ps: seq<Pair>)
    requires forall k :: k in m ==> exists i :: 0 <= i < |ps| && FirstLinePairs(ps)[i] == (k, m[k])
    ensures forall k :: k in m ==> OneLine(k) && OneLine(m[k])
  {
    forall k | k in m ensures OneLine(k) && OneLine(m[k]) {
      var i :| 0 <= i < |ps| && FirstLinePairs(ps)[i] == (k, m[k]);
      FirstLineIff(ps[i].0);
      FirstLineIff(ps[i].1);
    }
  }

  lemma OneLinePairs(m: map<string, string>, ps: seq<Pair>)
    requires Lists(ps, m)
    requires forall k :: k in m ==> OneLine(k) && OneLine(m[k])
    ensures FirstLinePairs(ps) == ps
  {
    forall i | 0 <= i < |ps| ensures FirstLinePairs(ps)[i] == ps[i] {
      FirstLineIff(ps[i].0);
      FirstLineIff(ps[i].1);
    }
  }

  lemma ListsAgree(m: map<string, string>, n: map<string, string>, ps: seq<Pair>)
    requires Lists(ps, m)
    requires n == InsertAll(map[], ps)
    ensures n == m
  {
    InsertAllLists(map[], ps);
    forall k | k in n ensures k in m && n[k] == m[k] {
      var i :| 0 <= i < |ps| && ps[i] == (k, n[k]);
    }
    forall k | k in m ensures k in n {
      var i :| 0 <= i < |ps| && ps[i].0 == k;
    }
  }
}
