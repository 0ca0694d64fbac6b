/** Runs in which the case switch is one of the operations: when memory and file still agree after them. */
module SwitchRuns {
  import opened Text
  import opened KeyOrder
  import opened StoreMap
  import opened StoreFold
  import opened StoreFile
  import opened BackupStores
  import opened StoreRuns
  import opened CaseSwitch

  datatype Act = Do(op: Op) | Switch(ci: bool)

  /**
    A store, and whether the keys in its memory have been folded: since the last write or reload without
    regard for the switch, memory has gone through the order that does not tell cases apart.
   */
  datatype Track = Track(s: Model, folded: bool)

  predicate Refreshes(op: Op) {
    !op.GetAt? && !op.GetVec?
  }

  function Acted(t: Track, act: Act): Track {
    match act
    case Switch(ci) => Track(Switched(t.s, ci), t.folded || ci)
    case Do(op) => Track(Step(t.s, op).0, if Refreshes(op) then t.s.ci else t.folded)
  }

  function Acts(t: Track, acts: seq<Act>): Track
    decreases acts
  {
    if acts == [] then t else Acts(Acted(t, acts[0]), acts[1..])
  }

  ghost predicate CleanActs(acts: seq<Act>) {
    forall i :: 0 <= i < |acts| ==> acts[i].Do? ==> CleanOp(acts[i].op)
  }

  // ----- the invariant

  /** Folding the keys that a file gives is loading it with the keys folded. */
  ghost predicate Commutes(file: string) {
    Fill(true, [], Flatten(Load(false, file))) == Load(true, file)
  }

  /** What memory holds, by the file alone. */
  function Expected(t: Track): seq<Entry> {
    if t.s.ci || !t.folded then Load(t.s.ci, t.s.file) else Fill(false, [], Flatten(Load(true, t.s.file)))
  }

  ghost predicate TrackInv(t: Track) {
    && Sorted(t.s.ci, t.s.store)
    && Commutes(t.s.file)
    && (t.s.ci ==> t.folded)
    && DropEmpty(t.s.store) == Expected(t)
    && EmptyTogether(t.s)
  }

  /** When there are no values in memory, there are none in the file. */
  ghost predicate EmptyTogether(s: Model) {
    Flatten(s.store) == [] ==> FilePairs(s.file) == []
  }

  // ----- folding keys that are already distinct

  lemma {:induction false} SortedEqual(ci: bool, a: seq<Entry>, b: seq<Entry>)
    requires Sorted(ci, a) && Sorted(ci, b)
    requires forall e :: e in a <==> e in b
    ensures a == b
  {
    NoMembers(a, b);
    if a == [] {
    } else {
      assert a[0] in b;
      FirstEqual(ci, a, b);
      assert a == [a[0]] + a[1..] && b == [b[0]] + b[1..];
      forall e ensures e in a[1..] <==> e in b[1..] {
        TailMembers(ci, a, e);
        TailMembers(ci, b, e);
      }
      SortedEqual(ci, a[1..], b[1..]);
    }
  }

  lemma NoMembers(a: seq<Entry>, b: seq<Entry>)
    requires forall e :: e in b ==> e in a
    ensures a == [] ==> b == []
  {
    if b != [] {
      assert b[0] in a;
    }
  }

  lemma FirstEqual(ci: bool, a: seq<Entry>, b: seq<Entry>)
    requires Sorted(ci, a) && Sorted(ci, b) && a != [] && b != []
    requires a[0] in b && b[0] in a
    ensures a[0] == b[0]
  {
    LessIsStrictOrder(ci, a[0].key, b[0].key, "");
    LessIsStrictOrder(ci, b[0].key, a[0].key, "");
  }

  lemma TailMembers(ci: bool, a: seq<Entry>, e: Entry)
    requires Sorted(ci, a) && a != []
    ensures e in a[1..] <==> e in a && e != a[0]
  {
    if e in a[1..] {
      var i :| 0 <= i < |a[1..]| && a[1..][i] == e;
      assert a[i + 1] == e;
      LessIsStrictOrder(ci, a[0].key, a[i + 1].key, "");
    }
    if e in a && e != a[0] {
      var i :| 0 <= i < |a| && a[i] == e;
      assert a[1..][i - 1] == e;
    }
  }

  ghost predicate NoneEmpty(st: seq<Entry>) {
    forall i :: 0 <= i < |st| ==> st[i].vals != []
  }

  /** In a store without empty lists, an entry is there exactly when its spelling has its list. */
  lemma SpelledEntry(f: seq<Entry>, e: Entry)
    requires Sorted(true, f) && NoneEmpty(f) && e.vals != []
    ensures e in f <==> Merged(false, f, e.key) == e.vals
  {
    MergedSpelling(f, e.key);
    if e in f {
      var i :| 0 <= i < |f| && f[i] == e;
      FoundAt(true, f, e.key, i);
    }
  }

  lemma SpelledSame(f: seq<Entry>, g: seq<Entry>)
    requires Sorted(true, f) && Sorted(true, g) && NoneEmpty(f) && NoneEmpty(g)
    requires forall k :: Merged(false, f, k) == Merged(false, g, k)
    ensures f == g
  {
    forall e ensures e in f <==> e in g {
      if e.vals != [] {
        SpelledEntry(f, e);
        SpelledEntry(g, e);
      }
    }
    SortedEqual(true, f, g);
  }

  /** What filling makes: sorted, without empty lists, and each key spelled as in one of the pairs. */
  lemma Filled(ci: bool, ps: seq<Pair>)
    ensures Sorted(ci, Fill(ci, [], ps)) && NoneEmpty(Fill(ci, [], ps))
    ensures forall i :: 0 <= i < |Fill(ci, [], ps)| ==> Fill(ci, [], ps)[i].key in Keys(ps)
  {
    FillLookup(ci, [], ps, "");
    FillKeysIn(ci, [], ps, Keys(ps));
  }

  lemma UnfoldedDistinct(f: seq<Entry>)
    requires Sorted(true, f)
    ensures CaseDistinct(Fill(false, [], Flatten(f)))
  {
    var u := Fill(false, [], Flatten(f));
    Filled(false, Flatten(f));
    forall i, j | 0 <= i < j < |u| ensures !Same(true, u[i].key, u[j].key) {
      FlattenKeys(f, u[i].key);
      FlattenKeys(f, u[j].key);
      var a :| 0 <= a < |f| && f[a].key == u[i].key;
      var b :| 0 <= b < |f| && f[b].key == u[j].key;
      LessIsStrictOrder(false, u[i].key, u[j].key, "");
      LessIsStrictOrder(true, f[a].key, f[b].key, "");
      LessIsStrictOrder(true, f[b].key, f[a].key, "");
    }
  }

  lemma UnfoldedLookup(f: seq<Entry>, k: string)
    ensures Lookup(false, Fill(false, [], Flatten(f)), k) == Merged(false, f, k)
  {
    FillLookup(false, [], Flatten(f), k);
    SelectedMerged(false, f, k);
    assert [] + Merged(false, f, k) == Merged(false, f, k);
  }

  /** A store whose keys are folded comes back as it was when it is switched off and on. */
  lemma OffAndOn(f: seq<Entry>)
    requires Sorted(true, f) && NoneEmpty(f)
    ensures Fill(true, [], Flatten(Fill(false, [], Flatten(f)))) == f
  {
    var u := Fill(false, [], Flatten(f));
    var v := Fill(true, [], Flatten(u));
    Filled(false, Flatten(f));
    Filled(true, Flatten(u));
    UnfoldedDistinct(f);
    forall k ensures Merged(false, v, k) == Merged(false, f, k) {
      CaseDistinctBack(u, k);
      UnfoldedLookup(v, k);
      UnfoldedLookup(f, k);
    }
    SpelledSame(v, f);
  }

  // ----- every action keeps the invariant

  lemma LoadFilled(ci: bool, file: string)
    ensures Sorted(ci, Load(ci, file)) && NoneEmpty(Load(ci, file))
    ensures DropEmpty(Load(ci, file)) == Load(ci, file)
    ensures AllClean(Flatten(Load(ci, file)))
  {
    Filled(ci, FilePairs(file));
    LoadTidy(ci, file);
    TidyFlatten(Load(ci, file));
  }

  lemma ExpectedTidy(t: Track)
    requires TrackInv(t)
    ensures Flatten(t.s.store) == Flatten(Expected(t)) && AllClean(Flatten(t.s.store))
    ensures DropEmpty(Expected(t)) == Expected(t)
  {
    FlattenDropEmpty(t.s.store);
    LoadFilled(t.s.ci, t.s.file);
    LoadFilled(true, t.s.file);
    FillTidy(false, [], Flatten(Load(true, t.s.file)));
    TidyFlatten(Fill(false, [], Flatten(Load(true, t.s.file))));
  }

  lemma FillNone(ci: bool, ps: seq<Pair>)
    ensures Fill(ci, [], ps) == [] ==> ps == []
  {
    if ps != [] {
      FillLookup(ci, [], ps, ps[0].0);
      SelectedHas(ci, ps, 0);
      assert Lookup(ci, Fill(ci, [], ps), ps[0].0) != [];
    }
  }

  lemma FlattenNone(st: seq<Entry>)
    requires NoneEmpty(st)
    ensures Flatten(st) == [] ==> st == []
  {
    if st != [] {
      assert |EntryPairs(st[0])| > 0;
    }
  }

  /** An empty memory goes with a file that has nothing in it, so that loading it changes nothing. */
  lemma EmptyIsIdle(s: Model)
    requires EmptyTogether(s)
    ensures Ready(s) == s
  {
  }

  lemma FillTogether(ci: bool, ps: seq<Pair>)
    ensures Flatten(Fill(ci, [], ps)) == [] ==> ps == []
  {
    Filled(ci, ps);
    FlattenNone(Fill(ci, [], ps));
    FillNone(ci, ps);
  }

  /** Any action at all, with any keys and values, keeps that. */
  lemma ActTogether(t: Track, act: Act)
    requires EmptyTogether(t.s)
    ensures EmptyTogether(Acted(t, act).s)
  {
    match act
    case Switch(ci) => FillTogether(ci, Flatten(t.s.store));
    case Do(op) =>
      EmptyIsIdle(t.s);
      if op.Reload? {
        FillTogether(t.s.ci, FilePairs(t.s.file));
      } else if !Refreshes(op) {
        TouchInvisible(t.s.ci, t.s.store, op.k);
      }
  }

  lemma {:induction false} ActsTogether(t: Track, acts: seq<Act>)
    requires EmptyTogether(t.s)
    ensures EmptyTogether(Acts(t, acts).s)
    decreases acts
  {
    if acts == [] {
    } else {
      ActTogether(t, acts[0]);
      ActsTogether(Acted(t, acts[0]), acts[1..]);
    }
  }

  lemma OpenedTogether(text: string)
    ensures EmptyTogether(Opened(text))
  {
    LoadFilled(false, text);
    FilePairsOfClean(Flatten(Load(false, text)));
  }

  /**
    Every operation starts by loading an empty memory, and after any run on any file, with any keys and
    values, reloads and switches, that changes nothing.
   */
  lemma LoadingIsIdle(text: string, acts: seq<Act>)
    ensures var s := Acts(Track(Opened(text), false), acts).s; Ready(s) == s
  {
    OpenedTogether(text);
    ActsTogether(Track(Opened(text), false), acts);
    EmptyIsIdle(Acts(Track(Opened(text), false), acts).s);
  }

  /** A store that has just saved something clean. */
  lemma SavedInv(s: Model)
    requires Sorted(s.ci, s.store) && AllClean(Flatten(s.store)) && s.file == SaveText(s.store)
    ensures TrackInv(Track(s, s.ci))
  {
    LoadSaved(s.ci, s.store);
    FilePairsOfClean(Flatten(s.store));
    FlattenDropEmpty(s.store);
    if s.ci {
      LoadFilled(true, s.file);
      OffAndOn(Load(true, s.file));
    }
  }

  /** A clean write of a clean store: the plain map tells that the result is clean. */
  lemma WriteSaved(s: Model, op: Op)
    requires Sorted(s.ci, s.store) && AllClean(Flatten(s.store)) && Ready(s) == s
    requires CleanOp(op) && Refreshes(op) && !op.Reload?
    ensures var u := Step(s, op).0;
            && u.ci == s.ci && Sorted(u.ci, u.store)
            && AllClean(Flatten(u.store)) && u.file == SaveText(u.store)
  {
    var s0 := Written(s, s.store);
    var a := PlainFill(s.ci, map[], Flatten(s.store));
    WrittenInv(s, s.store);
    PlainOf(s0, a);
    ReadyIsIdle(s0);
    SavedStep(s0, a, op);
    SameWrite(s, s0, op);
  }

  lemma PlainOf(s: Model, a: Plain)
    requires Sorted(s.ci, s.store) && a == PlainFill(s.ci, map[], Flatten(s.store))
    ensures Represents(s, a)
  {
    forall k ensures Lookup(s.ci, s.store, k) == At(a, Canon(s.ci, k)) {
      PlainFillAt(s.ci, map[], Flatten(s.store), k);
      FlattenSelected(s.ci, s.store, k);
    }
  }

  lemma SavedStep(s: Model, a: Plain, op: Op)
    requires Inv(s) && Represents(s, a) && s.file == SaveText(s.store) && AllClean(Flatten(s.store))
    requires CleanOp(op)
    ensures var u := Step(s, op).0;
            && u.ci == s.ci && Sorted(u.ci, u.store)
            && AllClean(Flatten(u.store)) && u.file == SaveText(u.store)
  {
    CleanIff(s, a);
    StepRefines(s, a, op);
    CleanOpKeeps(s.ci, a, op);
    CleanIff(Step(s, op).0, PlainStep(s.ci, a, op).0);
    StepSaved(s, a, op);
  }

  /** A write does not depend on the file once it need not be loaded. */
  lemma SameWrite(s: Model, s0: Model, op: Op)
    requires Ready(s) == s && Ready(s0) == s0 && s0 == s.(file := s0.file)
    requires Refreshes(op) && !op.Reload?
    ensures Step(s, op).0 == Step(s0, op).0
  {
  }

  lemma ReadInv(t: Track, op: Op)
    requires TrackInv(t) && !Refreshes(op)
    ensures TrackInv(Acted(t, Do(op)))
  {
    ActTogether(t, Do(op));
    EmptyIsIdle(t.s);
    TouchInvisible(t.s.ci, t.s.store, op.k);
    LookupTouch(t.s.ci, t.s.store, op.k, op.k);
  }

  lemma SwitchInv(t: Track, ci: bool)
    requires TrackInv(t)
    ensures TrackInv(Acted(t, Switch(ci)))
  {
    ActTogether(t, Switch(ci));
    if ci != t.s.ci {
      ExpectedTidy(t);
      Filled(ci, Flatten(t.s.store));
      LoadFilled(true, t.s.file);
      if ci && t.folded {
        OffAndOn(Load(true, t.s.file));
      }
      if !ci {
        FillTidy(false, [], Flatten(Load(true, t.s.file)));
        TidyFlatten(Fill(false, [], Flatten(Load(true, t.s.file))));
      }
    }
  }

  lemma ActInv(t: Track, act: Act)
    requires TrackInv(t) && (act.Do? ==> CleanOp(act.op))
    ensures TrackInv(Acted(t, act))
  {
    ActTogether(t, act);
    match act
    case Switch(ci) => SwitchInv(t, ci);
    case Do(op) =>
      if op.Reload? {
        LoadFilled(t.s.ci, t.s.file);
      } else if Refreshes(op) {
        ExpectedTidy(t);
        EmptyIsIdle(t.s);
        WriteSaved(t.s, op);
        SavedInv(Step(t.s, op).0);
      } else {
        ReadInv(t, op);
      }
  }

  lemma {:induction false} ActsInv(t: Track, acts: seq<Act>)
    requires TrackInv(t) && CleanActs(acts)
    ensures TrackInv(Acts(t, acts))
    decreases acts
  {
    if acts == [] {
    } else {
      ActInv(t, acts[0]);
      assert forall i :: 0 <= i < |acts[1..]| ==> acts[1..][i] == acts[i + 1];
      ActsInv(Acted(t, acts[0]), acts[1..]);
    }
  }

  // ----- when memory and file agree

  /** Memory answers as the file would. */
  ghost predicate Agrees(s: Model) {
    SameAnswers(s.ci, Load(s.ci, s.file), s.store)
  }

  lemma AgreesIff(t: Track)
    requires TrackInv(t)
    ensures Agrees(t.s) <==> t.s.ci || !t.folded || CaseDistinct(Load(false, t.s.file))
  {
    var l := Load(false, t.s.file);
    forall k ensures Lookup(t.s.ci, Expected(t), k) == Lookup(t.s.ci, t.s.store, k) {
      DropEmptyLookup(t.s.ci, t.s.store, k);
    }
    if !t.s.ci && t.folded {
      LoadFilled(false, t.s.file);
      assert Expected(t) == ThereAndBack(l);
      SwitchBackIff(Model(false, l, t.s.file));
      ThereAndBackIs(Model(false, l, t.s.file));
      AgreesThere(t, l);
    }
  }

  lemma AgreesThere(t: Track, l: seq<Entry>)
    requires !t.s.ci && l == Load(false, t.s.file)
    requires SameAnswers(false, ThereAndBack(l), t.s.store)
    ensures Agrees(t.s) <==> SameAnswers(false, ThereAndBack(l), l)
  {
    if Agrees(t.s) {
      forall k ensures Lookup(false, ThereAndBack(l), k) == Lookup(false, l, k) {
        assert Lookup(false, l, k) == Lookup(false, t.s.store, k);
      }
    }
    if SameAnswers(false, ThereAndBack(l), l) {
      forall k ensures Lookup(false, l, k) == Lookup(false, t.s.store, k) {
        assert Lookup(false, ThereAndBack(l), k) == Lookup(false, l, k);
        assert Lookup(false, ThereAndBack(l), k) == Lookup(false, t.s.store, k);
      }
    }
  }

  /**
    After any clean run with switches on any file, memory answers as a load of the file would, exactly when
    the switch is on, or memory has been written or loaded with it off since it was last on, or the file
    has no two keys that differ in case alone.
   */
  lemma SwitchedRunsAgree(text: string, acts: seq<Act>)
    requires CleanActs(acts)
    ensures var t := Acts(Track(Opened(text), false), acts);
            Agrees(t.s) <==> t.s.ci || !t.folded || CaseDistinct(Load(false, t.s.file))
  {
    OpenedRepresents(text);
    LoadFilled(false, text);
    SavedInv(Opened(text));
    ActsInv(Track(Opened(text), false), acts);
    AgreesIff(Acts(Track(Opened(text), false), acts));
  }

  /** Switching on and off again on a file with the keys `A` and `a` is such a run on which they differ. */
  lemma SwitchedRunLoses()
    ensures var t := Acts(Track(Opened("A: 1\na: 2\n"), false), [Switch(true), Switch(false)]);
            !Agrees(t.s)
  {
    var s := Opened("A: 1\na: 2\n");
    var t1 := Acted(Track(s, false), Switch(true));
    assert [Switch(true), Switch(false)][1..] == [Switch(false)] && [Switch(false)][1..] == [];
    assert Acts(t1, [Switch(false)]) == Acted(t1, Switch(false));
    SwitchBackLoses();
    FileNormal(false, "A: 1\na: 2\n");
    SameAnswersFlip(false, s.store, Switched(Switched(s, true), false).store);
  }

  lemma SameAnswersFlip(ci: bool, st: seq<Entry>, st': seq<Entry>)
    ensures SameAnswers(ci, st, st') <==> SameAnswers(ci, st', st)
  {
    if SameAnswers(ci, st, st') {
      forall k ensures Lookup(ci, st', k) == Lookup(ci, st, k) {
        assert Lookup(ci, st, k) == Lookup(ci, st', k);
      }
    }
    if SameAnswers(ci, st', st) {
      forall k ensures Lookup(ci, st, k) == Lookup(ci, st', k) {
        assert Lookup(ci, st', k) == Lookup(ci, st, k);
      }
    }
  }

  // ----- any spelling finds a key once the switch is on

  lemma ActSorted(t: Track, act: Act)
    requires Sorted(t.s.ci, t.s.store)
    ensures Sorted(Acted(t, act).s.ci, Acted(t, act).s.store)
  {
    LoadFilled(t.s.ci, t.s.file);
    match act
    case Switch(ci) => Filled(ci, Flatten(t.s.store));
    case Do(op) =>
      if op.Add? || op.SetAt? || op.ClearKey? {
        WriteSteps(Ready(t.s), map[], op);
        PutSorted(t.s.ci, Ready(t.s).store, op.k, NewList(op, Lookup(t.s.ci, Ready(t.s).store, op.k)));
        assert Step(t.s, op) == Step(Ready(t.s), op);
      } else if op.GetAt? || op.GetVec? {
        LookupTouch(t.s.ci, Ready(t.s).store, op.k, op.k);
      }
  }

  lemma {:induction false} ActsSorted(t: Track, acts: seq<Act>)
    requires Sorted(t.s.ci, t.s.store)
    ensures Sorted(Acts(t, acts).s.ci, Acts(t, acts).s.store)
    decreases acts
  {
    if acts == [] {
    } else {
      ActSorted(t, acts[0]);
      ActsSorted(Acted(t, acts[0]), acts[1..]);
    }
  }

  lemma ListedIdle(s: Model, k: string)
    requires EmptyTogether(s)
    ensures Listed(s, k) == Lookup(s.ci, s.store, k)
  {
    EmptyIsIdle(s);
  }

  /**
    After any run on any file, switching on lets a key be found under every respelling of it: with every value
    that it had, and with exactly its list when no two keys that have values differ in case alone.
   */
  lemma RespellingFinds(text: string, acts: seq<Act>, k: string, q: string)
    requires !Acts(Track(Opened(text), false), acts).s.ci && Respelled(k, q)
    ensures var s := Acts(Track(Opened(text), false), acts).s;
            var u := Switched(s, true);
            && (forall v :: v in Listed(s, k) ==> v in Listed(u, q))
            && (CaseDistinct(s.store) && Listed(s, k) != [] ==> Listed(u, q) == Listed(s, k))
  {
    var t := Acts(Track(Opened(text), false), acts);
    OpenedTogether(text);
    OpenedRepresents(text);
    ActsTogether(Track(Opened(text), false), acts);
    ActsSorted(Track(Opened(text), false), acts);
    SwitchedFinds(t.s, k, q);
  }

  lemma SwitchedFinds(s: Model, k: string, q: string)
    requires !s.ci && Sorted(false, s.store) && EmptyTogether(s) && Respelled(k, q)
    ensures var u := Switched(s, true);
            && (forall v :: v in Listed(s, k) ==> v in Listed(u, q))
            && (CaseDistinct(s.store) && Listed(s, k) != [] ==> Listed(u, q) == Listed(s, k))
  {
    var u := Switched(s, true);
    SameIff(k, q);
    ActTogether(Track(s, false), Switch(true));
    ListedIdle(s, k);
    ListedIdle(u, q);
    SwitchMerges(s, true, q, "");
    if Has(false, s.store, k) {
      var i := LowerBound(false, s.store, k);
      MergedHas(true, s.store, q, i);
      if CaseDistinct(s.store) && s.store[i].vals != [] {
        MergedOnly(true, s.store, q, i);
      }
    }
  }

  lemma {:induction false} MergedHas(ci: bool, st: seq<Entry>, k: string, i: nat)
    requires i < |st| && Same(ci, st[i].key, k)
    ensures forall v :: v in st[i].vals ==> v in Merged(ci, st, k)
  {
    if i == 0 {
    } else {
      MergedHas(ci, st[1..], k, i - 1);
    }
  }
}
