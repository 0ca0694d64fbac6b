/** What `case_insensitive` does to a store: to its lists, to its values and to its agreement with the file. */
module CaseSwitch {
  import opened Text
  import opened KeyOrder
  import opened StoreMap
  import opened StoreFold
  import opened StoreFile
  import opened BackupStores
  import opened StoreRuns

  /** The lists of all keys that are the same as `k` under `ci`, one after the other in store order. */
  function Merged(ci: bool, st: seq<Entry>, k: string): seq<string> {
    if st == [] then []
    else (if Same(ci, st[0].key, k) then st[0].vals else []) + Merged(ci, st[1..], k)
  }

  lemma {:induction false} SelectedMerged(ci: bool, st: seq<Entry>, k: string)
    ensures Selected(ci, Flatten(st), k) == Merged(ci, st, k)
  {
    if st == [] {
    } else {
      SelectedMerged(ci, st[1..], k);
      SelectedConcat(ci, EntryPairs(st[0]), Flatten(st[1..]), k);
      SelectedEntry(ci, st[0].key, st[0].vals, k);
    }
  }

  /**
    After switching, each key has the lists of all keys equal to it under the new order, in old key order,
    and every value is there as often as before.
   */
  lemma SwitchMerges(s: Model, ci: bool, k: string, v: string)
    requires s.ci != ci
    ensures Sorted(ci, Switched(s, ci).store)
    ensures Lookup(ci, Switched(s, ci).store, k) == Merged(ci, s.store, k)
    ensures Held(Switched(s, ci).store, v) == Held(s.store, v)
  {
    FillLookup(ci, [], Flatten(s.store), k);
    SelectedMerged(ci, s.store, k);
    FillKeeps(ci, [], Flatten(s.store), v);
    HeldFlatten(s.store, v);
  }

  /**
    For a store that has just been saved, switching in memory and loading the file under the new order are
    the same thing exactly when the file can hold everything in the store.
   */
  lemma SwitchIff(s: Model, ci: bool)
    requires s.ci != ci && s.file == SaveText(s.store)
    ensures Switched(s, ci).store == Load(ci, s.file) <==> AllClean(Flatten(s.store))
    ensures AllClean(Flatten(s.store)) ==>
              Inv(Switched(s, ci)) && Represents(Switched(s, ci), PlainFile(ci, s.file))
  {
    var ps := Flatten(s.store);
    if AllClean(ps) {
      FilePairsOfClean(ps);
      LoadedRepresents(Switched(s, ci));
    }
    if Switched(s, ci).store == Load(ci, s.file) {
      forall k ensures Lookup(ci, Load(ci, FileText(ps)), k) == Selected(ci, ps, k) {
        FillLookup(ci, [], ps, k);
      }
      assert Carries(ci, Load(ci, FileText(ps)), ps);
      LoadCarriesIff(ci, ps);
    }
  }

  // ----- the file is up to date all through a run

  lemma StepSaved(s: Model, a: Plain, op: Op)
    requires Inv(s) && Represents(s, a) && s.file == SaveText(s.store)
    requires op.Reload? ==> PlainClean(s.ci, a)
    ensures Step(s, op).0.file == SaveText(Step(s, op).0.store)
  {
    ReadyIsIdle(s);
    if op.GetAt? || op.GetVec? {
      TouchInvisible(s.ci, s.store, op.k);
    } else if op.Reload? {
      CleanIff(s, a);
      FlattenDropEmpty(s.store);
    }
  }

  lemma {:induction false} RunSaved(s: Model, a: Plain, ops: seq<Op>)
    requires Inv(s) && Represents(s, a) && s.file == SaveText(s.store) && PlainClean(s.ci, a)
    requires forall i :: 0 <= i < |ops| ==> CleanOp(ops[i])
    ensures var t := After(s, ops);
            t.ci == s.ci && t.file == SaveText(t.store) && AllClean(Flatten(t.store))
    decreases ops
  {
    if ops == [] {
      CleanIff(s, a);
    } else {
      StepSaved(s, a, ops[0]);
      StepRefines(s, a, ops[0]);
      CleanOpKeeps(s.ci, a, ops[0]);
      assert forall i :: 0 <= i < |ops[1..]| ==> ops[1..][i] == ops[i + 1];
      RunSaved(Step(s, ops[0]).0, PlainStep(s.ci, a, ops[0]).0, ops[1..]);
    }
  }

  /**
    A store may be switched to case-insensitivity after any run of clean operations on any file: memory is
    then what loading the file would give, and every further clean run answers as the plain map with case
    folded that the file describes.
   */
  lemma SwitchAfterRun(text: string, ops: seq<Op>, more: seq<Op>)
    requires forall i :: 0 <= i < |ops| ==> CleanOp(ops[i])
    requires forall i :: 0 <= i < |more| ==> CleanOp(more[i])
    ensures var s := Switched(After(Opened(text), ops), true);
            && s.store == Load(true, s.file)
            && Run(s, more) == PlainRun(true, PlainFile(true, s.file), more)
  {
    OpenedRepresents(text);
    RunSaved(Opened(text), PlainFile(false, text), ops);
    var before := After(Opened(text), ops);
    SwitchIff(before, true);
    var s := Switched(before, true);
    LoadTidy(true, s.file);
    TidyFlatten(s.store);
    CleanIff(s, PlainFile(true, s.file));
    CleanOpsFit(true, PlainFile(true, s.file), more);
    RunRefines(s, PlainFile(true, s.file), more);
  }

  // ----- switching on and off again

  function Keys(ps: seq<Pair>): set<string> {
    set j | 0 <= j < |ps| :: ps[j].0
  }

  ghost predicate KeysIn(st: seq<Entry>, ks: set<string>) {
    forall i :: 0 <= i < |st| ==> st[i].key in ks && st[i].vals != []
  }

  lemma {:induction false} FillKeysIn(ci: bool, st: seq<Entry>, ps: seq<Pair>, ks: set<string>)
    requires KeysIn(st, ks)
    requires forall j :: 0 <= j < |ps| ==> ps[j].0 in ks
    ensures KeysIn(Fill(ci, st, ps), ks)
    decreases ps
  {
    if ps == [] {
    } else {
      assert forall j :: 0 <= j < |ps[1..]| ==> ps[1..][j] == ps[j + 1];
      FillKeysIn(ci, Push(ci, st, ps[0].0, ps[0].1), ps[1..], ks);
    }
  }

  lemma {:induction false} FlattenKeys(st: seq<Entry>, k: string)
    ensures k in Keys(Flatten(st)) <==> exists i :: 0 <= i < |st| && st[i].key == k && st[i].vals != []
  {
    if st == [] {
    } else {
      FlattenKeys(st[1..], k);
      var head, tail := EntryPairs(st[0]), Flatten(st[1..]);
      assert forall j :: 0 <= j < |tail| ==> (head + tail)[|head| + j] == tail[j];
      assert forall i :: 0 < i < |st| ==> st[i] == st[1..][i - 1];
      if st[0].key == k && st[0].vals != [] {
        assert (head + tail)[0].0 == k;
      }
      if k in Keys(tail) {
        var j :| 0 <= j < |tail| && tail[j].0 == k;
        assert (head + tail)[|head| + j].0 == k;
      }
    }
  }

  lemma {:induction false} MergedOnly(ci: bool, st: seq<Entry>, k: string, i: nat)
    requires i < |st| && Same(ci, st[i].key, k)
    requires forall j :: 0 <= j < |st| && j != i && Same(ci, st[j].key, k) ==> st[j].vals == []
    ensures Merged(ci, st, k) == st[i].vals
  {
    assert forall j :: 0 < j < |st| ==> st[j] == st[1..][j - 1];
    if i == 0 {
      MergedNone(ci, st[1..], k);
    } else {
      MergedOnly(ci, st[1..], k, i - 1);
    }
  }

  lemma {:induction false} MergedNone(ci: bool, st: seq<Entry>, k: string)
    requires forall j :: 0 <= j < |st| && Same(ci, st[j].key, k) ==> st[j].vals == []
    ensures Merged(ci, st, k) == []
  {
    if st == [] {
    } else {
      assert forall j :: 0 < j < |st| ==> st[j] == st[1..][j - 1];
      MergedNone(ci, st[1..], k);
    }
  }

  /** No two keys that have values differ in case alone. */
  ghost predicate CaseDistinct(st: seq<Entry>) {
    forall i, j :: 0 <= i < j < |st| && st[i].vals != [] && st[j].vals != [] ==>
      !Same(true, st[i].key, st[j].key)
  }

  /** The store after switching on and off again. */
  function ThereAndBack(st: seq<Entry>): seq<Entry> {
    Fill(false, [], Flatten(Fill(true, [], Flatten(st))))
  }

  /** What a key finds there: only the spelling that its class was entered with keeps anything. */
  lemma BackLookup(st: seq<Entry>, k: string)
    ensures var f := Fill(true, [], Flatten(st));
            Lookup(false, ThereAndBack(st), k) ==
            if Has(true, f, k) && f[LowerBound(true, f, k)].key == k then Merged(true, st, k) else []
  {
    var f := Fill(true, [], Flatten(st));
    FillLookup(true, [], Flatten(st), k);
    SelectedMerged(true, st, k);
    FillLookup(false, [], Flatten(f), k);
    SelectedMerged(false, f, k);
    MergedSpelling(f, k);
  }

  /** In a store that does not tell cases apart, one spelling has its entry's list or nothing. */
  lemma MergedSpelling(f: seq<Entry>, k: string)
    requires Sorted(true, f)
    ensures Merged(false, f, k) ==
            if Has(true, f, k) && f[LowerBound(true, f, k)].key == k then Lookup(true, f, k) else []
  {
    var n := LowerBound(true, f, k);
    forall j | 0 <= j < |f| && f[j].key == k ensures Has(true, f, k) && n == j {
      FoundAt(true, f, k, j);
    }
    if Has(true, f, k) && f[n].key == k {
      MergedOnly(false, f, k, n);
    } else {
      MergedNone(false, f, k);
    }
  }

  lemma ThereAndBackIs(s: Model)
    requires !s.ci
    ensures Switched(Switched(s, true), false).store == ThereAndBack(s.store)
  {
  }

  /** Switching on keeps a class of keys exactly when one of them has values. */
  lemma SpelledIff(st: seq<Entry>, k: string)
    ensures Has(true, Fill(true, [], Flatten(st)), k) <==> Merged(true, st, k) != []
  {
    FillLookup(true, [], Flatten(st), k);
    SelectedMerged(true, st, k);
    FillKeysIn(true, [], Flatten(st), Keys(Flatten(st)));
  }

  /** The spelling that a class of keys is entered with is one of the keys that have values. */
  lemma Spelling(st: seq<Entry>, n: nat)
    requires n < |Fill(true, [], Flatten(st))|
    ensures exists i :: 0 <= i < |st| && st[i].key == Fill(true, [], Flatten(st))[n].key && st[i].vals != []
  {
    FillKeysIn(true, [], Flatten(st), Keys(Flatten(st)));
    FlattenKeys(st, Fill(true, [], Flatten(st))[n].key);
  }

  lemma CaseDistinctBack(st: seq<Entry>, k: string)
    requires Sorted(false, st) && CaseDistinct(st)
    ensures Lookup(false, ThereAndBack(st), k) == Lookup(false, st, k)
  {
    BackLookup(st, k);
    SpelledIff(st, k);
    var f := Fill(true, [], Flatten(st));
    var n := LowerBound(true, f, k);
    if n < |f| {
      Spelling(st, n);
    }
    if Lookup(false, st, k) != [] {
      var i := LowerBound(false, st, k);
      assert st[i].key == k && st[i].vals == Lookup(false, st, k);
      MergedOnly(true, st, k, i);
      var j :| 0 <= j < |st| && st[j].key == f[n].key && st[j].vals != [];
      assert j == i;
    } else if Has(true, f, k) && f[n].key == k {
      var j :| 0 <= j < |st| && st[j].key == f[n].key && st[j].vals != [];
      FoundAt(false, st, k, j);
      assert false;
    }
  }

  /**
    Switching on and off again destroys the spelling of keys: it leaves every answer alone exactly when no
    two keys that have values differ in case alone.
   */
  lemma SwitchBackIff(s: Model)
    requires !s.ci && Sorted(false, s.store)
    ensures SameAnswers(false, Switched(Switched(s, true), false).store, s.store) <==> CaseDistinct(s.store)
  {
    ThereAndBackIs(s);
    var st := s.store;
    if CaseDistinct(st) {
      forall k ensures Lookup(false, ThereAndBack(st), k) == Lookup(false, st, k) {
        CaseDistinctBack(st, k);
      }
    }
    if SameAnswers(false, ThereAndBack(st), st) {
      BackCaseDistinct(st);
    }
  }

  lemma BackCaseDistinct(st: seq<Entry>)
    requires Sorted(false, st) && SameAnswers(false, ThereAndBack(st), st)
    ensures CaseDistinct(st)
  {
    var f := Fill(true, [], Flatten(st));
    FillLookup(true, [], Flatten(st), "");
    forall i, j | 0 <= i < j < |st| && st[i].vals != [] && st[j].vals != []
      ensures !Same(true, st[i].key, st[j].key)
    {
      SpelledBack(st, i);
      SpelledBack(st, j);
      LessIsStrictOrder(false, st[i].key, st[j].key, "");
      if Same(true, st[i].key, st[j].key) {
        FoundAt(true, f, st[j].key, LowerBound(true, f, st[i].key));
      }
    }
  }

  lemma SpelledBack(st: seq<Entry>, i: nat)
    requires Sorted(false, st) && i < |st| && st[i].vals != []
    requires SameAnswers(false, ThereAndBack(st), st)
    ensures var f := Fill(true, [], Flatten(st));
            var n := LowerBound(true, f, st[i].key);
            n < |f| && f[n].key == st[i].key
  {
    BackLookup(st, st[i].key);
    FoundAt(false, st, st[i].key, i);
    assert Lookup(false, ThereAndBack(st), st[i].key) == Lookup(false, st, st[i].key);
  }

  const TWO_SPELLINGS: seq<Pair> := [("A", "1"), ("a", "2")]
  const TWO_ENTRIES: seq<Entry> := [Entry("A", ["1"]), Entry("a", ["2"])]

  lemma TwoSpellingsFile()
    ensures FileText(TWO_SPELLINGS) == "A: 1\na: 2\n"
    ensures FilePairs("A: 1\na: 2\n") == TWO_SPELLINGS
  {
    assert TWO_SPELLINGS[1..] == [("a", "2")];
    assert FileText([("a", "2")]) == Line(("a", "2")) + FileText([]);
    assert FileText(TWO_SPELLINGS) == "A: 1\na: 2\n";
    FilePairsOfClean(TWO_SPELLINGS);
  }

  lemma TwoSpellingsStore()
    ensures Sorted(false, TWO_ENTRIES)
    ensures Fill(false, [], TWO_SPELLINGS) == TWO_ENTRIES
  {
    var st := TWO_ENTRIES;
    assert st[1..] == [Entry("a", ["2"])];
    assert EntryPairs(st[0]) == [("A", "1")] && EntryPairs(st[1]) == [("a", "2")];
    assert Flatten([Entry("a", ["2"])]) == EntryPairs(Entry("a", ["2"])) + Flatten([]);
    assert Flatten(st) == TWO_SPELLINGS;
    FillFlatten(false, st);
    assert DropEmpty([Entry("a", ["2"])]) == [Entry("a", ["2"])];
    assert DropEmpty(st) == st;
  }

  lemma TwoSpellingsSame()
    ensures !CaseDistinct(TWO_ENTRIES)
  {
    assert Lower("A") == Lower("a");
    assert Same(true, TWO_ENTRIES[0].key, TWO_ENTRIES[1].key);
  }

  /** A file on which it fails: `a` then has no values at all. */
  lemma SwitchBackLoses()
    ensures var s := Opened("A: 1\na: 2\n");
            !SameAnswers(false, Switched(Switched(s, true), false).store, s.store)
  {
    TwoSpellingsFile();
    TwoSpellingsStore();
    TwoSpellingsSame();
    SwitchBackIff(Opened("A: 1\na: 2\n"));
  }
}
