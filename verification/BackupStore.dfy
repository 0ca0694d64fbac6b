/**
  `BackupStore`: a map of lists in memory that is saved to its file by every write and loaded from it when
  it is empty. The class follows the source; `Step` is what each of its methods does, as a function.
 */
module BackupStores {
  import opened Text
  import opened CharStreams
  import opened KeyOrder
  import opened StoreMap
  import opened StoreFold
  import opened StoreFile

  /** The comparator switch, the map in memory and the text of the file. */
  datatype Model = Model(ci: bool, store: seq<Entry>, file: string)

  datatype Op =
    | Add(k: string, v: string)
    | SetAt(k: string, n: nat, v: string)
    | ClearAll
    | ClearKey(k: string)
    | GetAt(k: string, n: nat, dflt: string)
    | GetVec(k: string)
    | Reload

  datatype Answer = Done | Value(s: string) | List(l: seq<string>)

  /** The state once an empty memory has been loaded from the file. */
  function Ready(s: Model): Model {
    if s.store == [] then s.(store := Load(s.ci, s.file)) else s
  }

  /** The state after a write of `st`: in memory and in the file. */
  function Written(s: Model, st: seq<Entry>): Model {
    s.(store := st, file := SaveText(st))
  }

  /** The state after one key has been given the list `vals`, and the store saved. */
  function WriteKey(s: Model, k: string, vals: seq<string>): Model {
    Written(s, Put(s.ci, s.store, k, vals))
  }

  /** `std::vector::resize` to at least `n` elements. */
  function Resized(l: seq<string>, n: nat): (r: seq<string>)
    ensures |r| >= n && |r| >= |l|
  {
    if |l| < n then l + seq(n - |l|, _ => "") else l
  }

  function Step(s: Model, op: Op): (Model, Answer) {
    match op
    case Add(k, v) =>
      var r := Ready(s);
      (WriteKey(r, k, Lookup(r.ci, r.store, k) + [v]), Done)
    case SetAt(k, n, v) =>
      var r := Ready(s);
      (WriteKey(r, k, Resized(Lookup(r.ci, r.store, k), n + 1)[n := v]), Done)
    case ClearAll => (Written(s, []), Done)
    case ClearKey(k) =>
      var r := Ready(s);
      (WriteKey(r, k, []), Done)
    case GetAt(k, n, dflt) =>
      var r := Ready(s);
      var l := Lookup(r.ci, r.store, k);
      (r.(store := Touch(r.ci, r.store, k)), Value(if |l| < n + 1 then dflt else l[n]))
    case GetVec(k) =>
      var r := Ready(s);
      (r.(store := Touch(r.ci, r.store, k)), List(Lookup(r.ci, r.store, k)))
    case Reload => (s.(store := Load(s.ci, s.file)), Done)
  }

  /** A store just constructed on a file that holds `text`. */
  function Opened(text: string): Model {
    Written(Model(false, [], text), Load(false, text))
  }

  /** Changing the order of the keys: every value is pushed into a map with the new order. */
  function Switched(s: Model, ci: bool): Model {
    if s.ci == ci then s else Model(ci, Fill(ci, [], Flatten(s.store)), s.file)
  }

  class BackupStore {
    var ci: bool
    var store: seq<Entry>
    var file: string

    ghost function Abs(): Model
      reads this
    {
      Model(ci, store, file)
    }

    constructor (text: string)
      ensures Abs() == Opened(text)
    {
      ci, store, file := false, [], text;
      new;
      LoadFile();
      SaveFile();
    }

    /** `load` */
    method LoadFile()
      modifies `store
      ensures store == Load(ci, file)
    {
      store := [];
      var ifs := new CharStream(file);
      var line := "";
      while true
        invariant ifs.Valid() && fresh(ifs) && !ifs.failbit && (ifs.eofbit ==> ifs.Rest() == "")
        invariant Fill(ci, store, FilePairs(ifs.Rest())) == Load(ci, file)
        modifies this`store, ifs
        decreases |ifs.Rest()|, if ifs.eofbit then 0 else 1
      {
        ghost var before := ifs.Rest();
        line := ifs.GetLine(line, '\n');
        if ifs.failbit {
          assert before == "";
          return;
        }
        LoadLine(ci, store, before);
        PushLine(line);
      }
    }

    /** The body of the loop in `load`. */
    method PushLine(line: string)
      modifies `store
      ensures store == AfterLine(ci, old(store), line)
    {
      var colon := FindFirstOf(line, {':'});
      if colon < |line| {
        var pos := colon + 1;
        store := Push(ci, store, line[..pos - 1], line[if pos + 1 < |line| then pos + 1 else |line|..]);
      }
    }

    /** `save` */
    method SaveFile()
      modifies `file
      ensures file == SaveText(store)
    {
      var ofs := "";
      for i := 0 to |store|
        invariant ofs + FileText(Flatten(store[i..])) == SaveText(store)
      {
        var e := store[i];
        ghost var after := Flatten(store[i + 1..]);
        assert Flatten(store[i..]) == EntryPairs(e) + after;
        FileTextConcat(EntryPairs(e), after);
        assert EntryPairs(e)[0..] == EntryPairs(e);
        for j := 0 to |e.vals|
          invariant ofs + (FileText(EntryPairs(e)[j..]) + FileText(after)) == SaveText(store)
        {
          NextLine(ofs, EntryPairs(e), j, FileText(after));
          ofs := ofs + e.key + ": " + e.vals[j] + "\n";
        }
        assert EntryPairs(e)[|e.vals|..] == [];
        assert ofs + ("" + FileText(after)) == ofs + FileText(after);
      }
      assert store[|store|..] == [];
      assert ofs + "" == ofs;
      file := ofs;
    }

    method LoadIfEmpty()
      modifies `store
      ensures Abs() == Ready(old(Abs()))
    {
      if store == [] {
        LoadFile();
      }
    }

    method Reload()
      modifies `store
      ensures Abs() == Step(old(Abs()), Op.Reload).0
    {
      LoadFile();
    }

    method GetAt(k: string, n: nat, dflt: string) returns (s: string)
      modifies `store
      ensures (Abs(), Value(s)) == Step(old(Abs()), Op.GetAt(k, n, dflt))
    {
      LoadIfEmpty();
      var l := Lookup(ci, store, k);
      store := Touch(ci, store, k);
      if |l| < n + 1 {
        return dflt;
      }
      return l[n];
    }

    method GetVec(k: string) returns (l: seq<string>)
      modifies `store
      ensures (Abs(), List(l)) == Step(old(Abs()), Op.GetVec(k))
    {
      LoadIfEmpty();
      l := Lookup(ci, store, k);
      store := Touch(ci, store, k);
    }

    method ClearAll()
      modifies `store, `file
      ensures Abs() == Step(old(Abs()), Op.ClearAll).0
    {
      store := [];
      SaveFile();
    }

    method ClearKey(k: string)
      modifies `store, `file
      ensures Abs() == Step(old(Abs()), Op.ClearKey(k)).0
    {
      LoadIfEmpty();
      store := Put(ci, store, k, []);
      SaveFile();
    }

    method Add(k: string, v: string)
      modifies `store, `file
      ensures Abs() == Step(old(Abs()), Op.Add(k, v)).0
    {
      LoadIfEmpty();
      store := Push(ci, store, k, v);
      SaveFile();
    }

    method SetAt(k: string, n: nat, v: string)
      modifies `store, `file
      ensures Abs() == Step(old(Abs()), Op.SetAt(k, n, v)).0
    {
      LoadIfEmpty();
      var l := Lookup(ci, store, k);
      if |l| < n + 1 {
        l := Resized(l, n + 1);
      }
      assert l == Resized(Lookup(ci, store, k), n + 1);
      ghost var r := Abs();
      store := Put(ci, store, k, l[n := v]);
      SaveFile();
      assert Abs() == WriteKey(r, k, l[n := v]);
    }

    /** `replace_store` into an empty map with comparator `ci'`. */
    method ReplaceStore(ci': bool) returns (st: seq<Entry>)
      ensures st == Fill(ci', [], Flatten(store))
    {
      st := [];
      for i := 0 to |store|
        invariant Fill(ci', st, Flatten(store[i..])) == Fill(ci', [], Flatten(store))
      {
        var e := store[i];
        ghost var after := Flatten(store[i + 1..]);
        assert Flatten(store[i..]) == EntryPairs(e) + after;
        FillConcat(ci', st, EntryPairs(e), after);
        assert EntryPairs(e)[0..] == EntryPairs(e);
        for j := 0 to |e.vals|
          invariant Fill(ci', Fill(ci', st, EntryPairs(e)[j..]), after) == Fill(ci', [], Flatten(store))
        {
          assert EntryPairs(e)[j..][1..] == EntryPairs(e)[j + 1..];
          st := Push(ci', st, e.key, e.vals[j]);
        }
        assert EntryPairs(e)[|e.vals|..] == [];
      }
      assert store[|store|..] == [];
    }

    /** `case_insensitive(ci')` */
    method CaseInsensitive(ci': bool)
      modifies `ci, `store
      ensures Abs() == Switched(old(Abs()), ci')
    {
      if ci == ci' {
        return;
      }
      store := ReplaceStore(ci');
      ci := ci';
    }
  }

  function AfterLine(ci: bool, st: seq<Entry>, line: string): seq<Entry> {
    match ParseLine(line)
    case None => st
    case Some(p) => Push(ci, st, p.0, p.1)
  }

  /** Loading a file is loading its first line and then the rest. */
  lemma LoadLine(ci: bool, st: seq<Entry>, text: string)
    requires text != ""
    ensures var n := FindFirstOf(text, {'\n'});
            Fill(ci, st, FilePairs(text)) ==
            Fill(ci, AfterLine(ci, st, text[..n]), FilePairs(if n < |text| then text[n + 1..] else ""))
  {
  }

  lemma {:induction false} FileTextConcat(ps: seq<Pair>, qs: seq<Pair>)
    ensures FileText(ps + qs) == FileText(ps) + FileText(qs)
  {
    if ps == [] {
      assert ps + qs == qs;
    } else {
      FileTextConcat(ps[1..], qs);
      TailConcat(ps, qs);
      Assoc(Line(ps[0]), FileText(ps[1..]), FileText(qs));
    }
  }

  lemma NextLine(ofs: string, ps: seq<Pair>, j: nat, after: string)
    requires j < |ps|
    ensures ofs + (FileText(ps[j..]) + after) ==
            ofs + ps[j].0 + ": " + ps[j].1 + "\n" + (FileText(ps[j + 1..]) + after)
  {
    assert ps[j..][1..] == ps[j + 1..];
    assert FileText(ps[j..]) == Line(ps[j]) + FileText(ps[j + 1..]);
    Assoc(Line(ps[j]), FileText(ps[j + 1..]), after);
    Assoc(ofs, Line(ps[j]), FileText(ps[j + 1..]) + after);
  }
}
