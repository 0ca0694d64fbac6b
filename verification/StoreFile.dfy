/** The file of a store: one line `key: value` for every value, and what loading such a file gives. */
module StoreFile {
  import opened Text
  import opened KeyOrder
  import opened StoreMap
  import opened StoreFold

  // ----- writing and reading lines

  function Line(p: Pair): string {
    p.0 + ": " + p.1 + "\n"
  }

  function FileText(ps: seq<Pair>): string {
    if ps == [] then "" else Line(ps[0]) + FileText(ps[1..])
  }

  /** What `save` writes for the store `st`. */
  function SaveText(st: seq<Entry>): string {
    FileText(Flatten(st))
  }

  /** The key is what precedes the first colon; the value starts after the character that follows it. */
  function ParseLine(line: string): Option<Pair> {
    var colon := FindFirstOf(line, {':'});
    if colon == |line| then None
    else Some((line[..colon], line[if colon + 2 < |line| then colon + 2 else |line|..]))
  }

  /** The pairs of a file's lines, lines without a colon left out. */
  function FilePairs(text: string): seq<Pair>
    decreases |text|
  {
    if text == "" then []
    else
      var n := FindFirstOf(text, {'\n'});
      PairsThen(ParseLine(text[..n]), if n < |text| then FilePairs(text[n + 1..]) else [])
  }

  /** What `load` makes of a file. */
  function Load(ci: bool, text: string): seq<Entry> {
    Fill(ci, [], FilePairs(text))
  }

  // ----- which pairs survive the file

  /** A key and a value that a line can hold. */
  ghost predicate Clean(p: Pair) {
    Free(p.0, {':', '\n'}) && Free(p.1, {'\n'})
  }

  ghost predicate AllClean(ps: seq<Pair>) {
    forall i :: 0 <= i < |ps| ==> Clean(ps[i])
  }

  lemma ParseLineClean(line: string)
    requires Free(line, {'\n'})
    ensures ParseLine(line).Some? ==> Clean(ParseLine(line).value)
  {
  }

  function PairsThen(p: Option<Pair>, rest: seq<Pair>): seq<Pair> {
    match p
    case None => rest
    case Some(p) => [p] + rest
  }

  lemma FirstPairClean(line: string, rest: seq<Pair>)
    requires Free(line, {'\n'}) && AllClean(rest)
    ensures AllClean(PairsThen(ParseLine(line), rest))
  {
    ParseLineClean(line);
  }

  lemma {:induction false} FilePairsClean(text: string)
    ensures AllClean(FilePairs(text))
    decreases |text|
  {
    if text == "" {
    } else {
      var n := FindFirstOf(text, {'\n'});
      if n < |text| {
        FilePairsClean(text[n + 1..]);
      }
      FirstPairClean(text[..n], if n < |text| then FilePairs(text[n + 1..]) else []);
    }
  }

  lemma LineParses(p: Pair, rest: string)
    requires Clean(p)
    ensures FilePairs(Line(p) + rest) == [p] + FilePairs(rest)
  {
    var line := p.0 + ": " + p.1;
    var text := Line(p) + rest;
    assert text == line + ("\n" + rest);
    FindFirstOfAt(line, "\n" + rest, {'\n'});
    assert text[..|line|] == line && text[|line| + 1..] == rest;
    assert line == p.0 + (": " + p.1);
    FindFirstOfAt(p.0, ": " + p.1, {':'});
    assert line[..|p.0|] == p.0 && line[|p.0| + 2..] == p.1;
  }

  /** A line of a file that may be the last one: what follows it. */
  lemma FirstLineOf(line: string, rest: string)
    requires Free(line, {'\n'})
    ensures FilePairs(line + "\n" + rest) == PairsThen(ParseLine(line), FilePairs(rest))
    ensures line != "" ==> FilePairs(line) == PairsThen(ParseLine(line), [])
  {
    var text := line + "\n" + rest;
    assert text == line + ("\n" + rest);
    FindFirstOfAt(line, "\n" + rest, {'\n'});
    assert text[..|line|] == line && text[|line| + 1..] == rest;
    assert line + "" == line;
    FindFirstOfAt(line, "", {'\n'});
    assert line[..|line|] == line;
  }

  /**
    Every line of a file: one without a colon is passed over; otherwise the key is what stands before the first
    colon, and the value what follows the one character after it, whatever that is, or nothing.
   */
  lemma LineCases(key: string, c: char, val: string, rest: string)
    requires Free(key, {':', '\n'}) && c != '\n' && Free(val, {'\n'})
    ensures FilePairs(key + "\n" + rest) == FilePairs(rest)
    ensures FilePairs(key + ":" + "\n" + rest) == [(key, "")] + FilePairs(rest)
    ensures FilePairs(key + ":" + [c] + val + "\n" + rest) == [(key, val)] + FilePairs(rest)
    ensures FilePairs(key + ":" + [c] + val) == [(key, val)]
    ensures FilePairs(key) == []
  {
    LineValue(key, [c] + val);
    LineValue(key, "");
    assert ([c] + val)[1..] == val;
    assert key + ":" + ([c] + val) == key + ":" + [c] + val && key + ":" + "" == key + ":";
    FirstLineOf(key, rest);
    FirstLineOf(key + ":", rest);
    FirstLineOf(key + ":" + [c] + val, rest);
    assert [(key, val)] + [] == [(key, val)];
  }

  lemma LineValue(key: string, after: string)
    requires Free(key, {':'})
    ensures ParseLine(key) == None
    ensures ParseLine(key + ":" + after) == Some((key, if after == "" then "" else after[1..]))
  {
    assert key + "" == key;
    FindFirstOfAt(key, "", {':'});
    var line := key + ":" + after;
    assert line == key + (":" + after);
    FindFirstOfAt(key, ":" + after, {':'});
    assert line[..|key|] == key && line[|key| + 1..] == after;
    assert after != "" ==> line[|key| + 2..] == after[1..];
  }

  lemma {:induction false} FilePairsOfClean(ps: seq<Pair>)
    requires AllClean(ps)
    ensures FilePairs(FileText(ps)) == ps
  {
    if ps == [] {
    } else {
      LineParses(ps[0], FileText(ps[1..]));
      FilePairsOfClean(ps[1..]);
    }
  }

  /** Pairs written to a file are read back exactly when a line can hold each of them. */
  lemma FilePairsIff(ps: seq<Pair>)
    ensures FilePairs(FileText(ps)) == ps <==> AllClean(ps)
  {
    FilePairsClean(FileText(ps));
    if AllClean(ps) {
      FilePairsOfClean(ps);
    }
  }

  // ----- a loaded store survives saving and loading

  /** No empty lists, and nothing that a line cannot hold. */
  ghost predicate Tidy(st: seq<Entry>) {
    forall i :: 0 <= i < |st| ==> TidyEntry(st[i])
  }

  ghost predicate TidyEntry(e: Entry) {
    && e.vals != []
    && Free(e.key, {':', '\n'})
    && forall j :: 0 <= j < |e.vals| ==> Free(e.vals[j], {'\n'})
  }

  lemma PushTidy(ci: bool, st: seq<Entry>, p: Pair)
    requires Tidy(st) && Clean(p)
    ensures Tidy(Push(ci, st, p.0, p.1))
  {
    var n := LowerBound(ci, st, p.0);
    var vals := Lookup(ci, st, p.0) + [p.1];
    assert TidyEntry(if Has(ci, st, p.0) then Entry(st[n].key, vals) else Entry(p.0, vals));
  }

  lemma {:induction false} FillTidy(ci: bool, st: seq<Entry>, ps: seq<Pair>)
    requires Tidy(st) && AllClean(ps)
    ensures Tidy(Fill(ci, st, ps))
    decreases ps
  {
    if ps == [] {
    } else {
      PushTidy(ci, st, ps[0]);
      FillTidy(ci, Push(ci, st, ps[0].0, ps[0].1), ps[1..]);
    }
  }

  lemma EntryClean(e: Entry)
    requires TidyEntry(e)
    ensures AllClean(EntryPairs(e))
  {
  }

  lemma CleanConcat(ps: seq<Pair>, qs: seq<Pair>)
    requires AllClean(ps) && AllClean(qs)
    ensures AllClean(ps + qs)
  {
  }

  lemma {:induction false} TidyFlatten(st: seq<Entry>)
    requires Tidy(st)
    ensures AllClean(Flatten(st))
    ensures DropEmpty(st) == st
  {
    if st == [] {
    } else {
      assert TidyEntry(st[0]);
      EntryClean(st[0]);
      TidyFlatten(st[1..]);
      CleanConcat(EntryPairs(st[0]), Flatten(st[1..]));
      assert st == [st[0]] + st[1..];
    }
  }

  lemma LoadLookup(ci: bool, text: string, k: string)
    ensures Sorted(ci, Load(ci, text))
    ensures Lookup(ci, Load(ci, text), k) == Selected(ci, FilePairs(text), k)
  {
    FillLookup(ci, [], FilePairs(text), k);
    assert [] + Selected(ci, FilePairs(text), k) == Selected(ci, FilePairs(text), k);
  }

  lemma LoadTidy(ci: bool, text: string)
    ensures Sorted(ci, Load(ci, text)) && Tidy(Load(ci, text))
    ensures forall k :: Lookup(ci, Load(ci, text), k) == Selected(ci, FilePairs(text), k)
  {
    FilePairsClean(text);
    FillTidy(ci, [], FilePairs(text));
    LoadLookup(ci, text, "");
    forall k ensures Lookup(ci, Load(ci, text), k) == Selected(ci, FilePairs(text), k) {
      LoadLookup(ci, text, k);
    }
  }

  /** Loading what was saved gives the store without its empty lists, when a line can hold all of it. */
  lemma LoadSaved(ci: bool, st: seq<Entry>)
    requires Sorted(ci, st) && AllClean(Flatten(st))
    ensures Load(ci, SaveText(st)) == DropEmpty(st)
  {
    FilePairsOfClean(Flatten(st));
    FillFlatten(ci, st);
  }

  /** For any file at all, saving what was loaded from it and loading that again changes nothing. */
  lemma FileNormal(ci: bool, text: string)
    ensures Load(ci, SaveText(Load(ci, text))) == Load(ci, text)
  {
    LoadTidy(ci, text);
    TidyFlatten(Load(ci, text));
    LoadSaved(ci, Load(ci, text));
  }

  // ----- exactly which stores agree with their file

  lemma {:induction false} SelectedHas(ci: bool, ps: seq<Pair>, j: nat)
    requires j < |ps|
    ensures ps[j].1 in Selected(ci, ps, ps[j].0)
  {
    if j == 0 {
    } else {
      SelectedHas(ci, ps[1..], j - 1);
    }
  }

  lemma {:induction false} SelectedFrom(ci: bool, ps: seq<Pair>, k: string, v: string)
    requires v in Selected(ci, ps, k)
    ensures exists j :: 0 <= j < |ps| && ps[j].1 == v && Same(ci, ps[j].0, k)
  {
    if Same(ci, ps[0].0, k) && ps[0].1 == v {
    } else {
      SelectedFrom(ci, ps[1..], k, v);
      var j :| 0 <= j < |ps[1..]| && ps[1..][j].1 == v && Same(ci, ps[1..][j].0, k);
      assert ps[j + 1] == ps[1..][j];
    }
  }

  lemma SameFree(ci: bool, a: string, b: string)
    requires Same(ci, a, b) && Free(a, {':', '\n'})
    ensures Free(b, {':', '\n'})
  {
    if ci {
      assert Lower(a) == Lower(b);
      assert |Lower(b)| == |b|;
      forall i | 0 <= i < |b| ensures b[i] !in {':', '\n'} {
        assert Lower(a)[i] == ToLower(a[i]);
        assert Lower(b)[i] == ToLower(b[i]);
        assert a[i] !in {':', '\n'};
      }
    }
  }

  /** Every key has in `st` exactly the values written under it in `ps`, in any spelling and in order. */
  ghost predicate Carries(ci: bool, st: seq<Entry>, ps: seq<Pair>) {
    forall k :: Lookup(ci, st, k) == Selected(ci, ps, k)
  }

  ghost predicate SameAnswers(ci: bool, st: seq<Entry>, st': seq<Entry>) {
    forall k :: Lookup(ci, st, k) == Lookup(ci, st', k)
  }

  /** A file gives back the values written under each key exactly when a line can hold all that was written. */
  lemma LoadCarriesIff(ci: bool, ps: seq<Pair>)
    ensures Carries(ci, Load(ci, FileText(ps)), ps) <==> AllClean(ps)
  {
    var st, qs := Load(ci, FileText(ps)), FilePairs(FileText(ps));
    LoadTidy(ci, FileText(ps));
    FilePairsClean(FileText(ps));
    if AllClean(ps) {
      FilePairsOfClean(ps);
      assert Carries(ci, st, ps);
    }
    if Carries(ci, st, ps) {
      forall j | 0 <= j < |ps| ensures Clean(ps[j]) {
        SelectedHas(ci, ps, j);
        assert Lookup(ci, st, ps[j].0) == Selected(ci, ps, ps[j].0);
        SelectedFrom(ci, qs, ps[j].0, ps[j].1);
        var i :| 0 <= i < |qs| && qs[i].1 == ps[j].1 && Same(ci, qs[i].0, ps[j].0);
        SameFree(ci, qs[i].0, ps[j].0);
      }
      assert AllClean(ps);
    }
  }

  lemma CarriesSameAnswers(ci: bool, st: seq<Entry>, st': seq<Entry>)
    requires Sorted(ci, st')
    ensures SameAnswers(ci, st, st') <==> Carries(ci, st, Flatten(st'))
  {
    forall k ensures Selected(ci, Flatten(st'), k) == Lookup(ci, st', k) {
      FlattenSelected(ci, st', k);
    }
    if SameAnswers(ci, st, st') {
      forall k ensures Lookup(ci, st, k) == Selected(ci, Flatten(st'), k) {
        assert Lookup(ci, st, k) == Lookup(ci, st', k);
      }
    }
    if Carries(ci, st, Flatten(st')) {
      forall k ensures Lookup(ci, st, k) == Lookup(ci, st', k) {
        assert Lookup(ci, st, k) == Selected(ci, Flatten(st'), k);
      }
    }
  }

  /**
    A saved store answers every lookup as before once it is loaded again, exactly when no key that has
    values has a colon or a line break and no value has a line break.
   */
  lemma PersistIff(ci: bool, st: seq<Entry>)
    requires Sorted(ci, st)
    ensures SameAnswers(ci, Load(ci, SaveText(st)), st) <==> AllClean(Flatten(st))
  {
    LoadCarriesIff(ci, Flatten(st));
    CarriesSameAnswers(ci, Load(ci, SaveText(st)), st);
  }
}
