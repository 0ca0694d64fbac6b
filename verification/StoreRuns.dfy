/**
  What the users of a `BackupStore` may rely on, over whole runs: it answers like a plain map from keys to
  lists, whatever is loaded when, and reloading is harmless exactly when the file can hold what is there.
 */
module StoreRuns {
  import opened Text
  import opened KeyOrder
  import opened StoreMap
  import opened StoreFold
  import opened StoreFile
  import opened BackupStores

  // ----- the plain map

  /** Lists under keys, case folded when the store does so; an absent key has the empty list. */
  type Plain = map<string, seq<string>>

  function At(a: Plain, c: string): seq<string> {
    if c in a then a[c] else []
  }

  /** `l` with `v` in place `n`, and empty values in the places before it that `l` does not reach. */
  function Filled(l: seq<string>, n: nat, v: string): seq<string> {
    seq(if |l| <= n then n + 1 else |l|, i requires i >= 0 => if i == n then v else if i < |l| then l[i] else "")
  }

  function PlainStep(ci: bool, a: Plain, op: Op): (Plain, Answer) {
    match op
    case Add(k, v) => (a[Canon(ci, k) := At(a, Canon(ci, k)) + [v]], Done)
    case SetAt(k, n, v) => (a[Canon(ci, k) := Filled(At(a, Canon(ci, k)), n, v)], Done)
    case ClearAll => (map[], Done)
    case ClearKey(k) => (a[Canon(ci, k) := []], Done)
    case GetAt(k, n, dflt) =>
      (a, Value(if n < |At(a, Canon(ci, k))| then At(a, Canon(ci, k))[n] else dflt))
    case GetVec(k) => (a, List(At(a, Canon(ci, k))))
    case Reload => (a, Done)
  }

  /** The plain map that a file describes. */
  function PlainFill(ci: bool, a: Plain, ps: seq<Pair>): Plain
    decreases ps
  {
    if ps == [] then a else PlainFill(ci, PlainStep(ci, a, Add(ps[0].0, ps[0].1)).0, ps[1..])
  }

  function PlainFile(ci: bool, text: string): Plain {
    PlainFill(ci, map[], FilePairs(text))
  }

  // ----- runs

  function Run(s: Model, ops: seq<Op>): seq<Answer>
    decreases ops
  {
    if ops == [] then [] else [Step(s, ops[0]).1] + Run(Step(s, ops[0]).0, ops[1..])
  }

  function After(s: Model, ops: seq<Op>): Model
    decreases ops
  {
    if ops == [] then s else After(Step(s, ops[0]).0, ops[1..])
  }

  function PlainRun(ci: bool, a: Plain, ops: seq<Op>): seq<Answer>
    decreases ops
  {
    if ops == [] then [] else [PlainStep(ci, a, ops[0]).1] + PlainRun(ci, PlainStep(ci, a, ops[0]).0, ops[1..])
  }

  // ----- the invariant

  /**
    The keys are in order, and memory and file agree up to keys with empty lists, unless something is in
    memory that a line of the file cannot hold. In particular an empty memory goes with an empty file.
   */
  ghost predicate Inv(s: Model) {
    && Sorted(s.ci, s.store)
    && (AllClean(Flatten(s.store)) ==> Load(s.ci, s.file) == DropEmpty(s.store))
  }

  ghost predicate Represents(s: Model, a: Plain) {
    forall k :: Lookup(s.ci, s.store, k) == At(a, Canon(s.ci, k))
  }

  /** Everything in the plain map fits the lines of a file. */
  ghost predicate PlainClean(ci: bool, a: Plain) {
    forall k :: At(a, Canon(ci, k)) != [] ==> FitsFile(k, At(a, Canon(ci, k)))
  }

  ghost predicate FitsFile(k: string, l: seq<string>) {
    && Free(k, {':', '\n'})
    && forall i :: 0 <= i < |l| ==> Free(l[i], {'\n'})
  }

  lemma ReadyIsIdle(s: Model)
    requires Inv(s)
    ensures Ready(s) == s
  {
    if s.store == [] {
      assert Load(s.ci, s.file) == [];
    }
  }

  lemma CleanIff(s: Model, a: Plain)
    requires Sorted(s.ci, s.store) && Represents(s, a)
    ensures PlainClean(s.ci, a) <==> AllClean(Flatten(s.store))
  {
    var ps := Flatten(s.store);
    if PlainClean(s.ci, a) {
      forall j | 0 <= j < |ps| ensures Clean(ps[j]) {
        SelectedHas(s.ci, ps, j);
        FlattenSelected(s.ci, s.store, ps[j].0);
        assert ps[j].1 in At(a, Canon(s.ci, ps[j].0));
        assert FitsFile(ps[j].0, At(a, Canon(s.ci, ps[j].0)));
      }
    }
    if AllClean(ps) {
      forall k | At(a, Canon(s.ci, k)) != [] ensures FitsFile(k, At(a, Canon(s.ci, k))) {
        assert Lookup(s.ci, s.store, k) == At(a, Canon(s.ci, k));
        CleanKey(s.ci, s.store, k);
      }
    }
  }

  lemma CleanKey(ci: bool, st: seq<Entry>, k: string)
    requires Sorted(ci, st) && AllClean(Flatten(st)) && Lookup(ci, st, k) != []
    ensures FitsFile(k, Lookup(ci, st, k))
  {
    var ps, l := Flatten(st), Lookup(ci, st, k);
    FlattenSelected(ci, st, k);
    forall i | 0 <= i < |l| ensures Free(l[i], {'\n'}) && Free(k, {':', '\n'}) {
      SelectedFrom(ci, ps, k, l[i]);
      var j :| 0 <= j < |ps| && ps[j].1 == l[i] && Same(ci, ps[j].0, k);
      assert Clean(ps[j]);
      SameFree(ci, ps[j].0, k);
    }
    assert l[0] in l;
  }

  lemma WrittenInv(s: Model, st: seq<Entry>)
    requires Sorted(s.ci, st)
    ensures Inv(Written(s, st))
  {
    if AllClean(Flatten(st)) {
      LoadSaved(s.ci, st);
    }
  }

  lemma PutRepresents(s: Model, a: Plain, k: string, vals: seq<string>)
    requires Inv(s) && Represents(s, a)
    ensures Inv(Written(s, Put(s.ci, s.store, k, vals)))
    ensures Represents(Written(s, Put(s.ci, s.store, k, vals)), a[Canon(s.ci, k) := vals])
  {
    PutSorted(s.ci, s.store, k, vals);
    WrittenInv(s, Put(s.ci, s.store, k, vals));
    forall q ensures Lookup(s.ci, Put(s.ci, s.store, k, vals), q) == At(a[Canon(s.ci, k) := vals], Canon(s.ci, q)) {
      LookupPut(s.ci, s.store, k, vals, q);
      assert Lookup(s.ci, s.store, q) == At(a, Canon(s.ci, q));
    }
  }

  lemma TouchRepresents(s: Model, a: Plain, k: string)
    requires Inv(s) && Represents(s, a)
    ensures Inv(s.(store := Touch(s.ci, s.store, k)))
    ensures Represents(s.(store := Touch(s.ci, s.store, k)), a)
  {
    TouchInvisible(s.ci, s.store, k);
    LookupTouch(s.ci, s.store, k, k);
    forall q ensures Lookup(s.ci, Touch(s.ci, s.store, k), q) == At(a, Canon(s.ci, q)) {
      LookupTouch(s.ci, s.store, k, q);
      assert Lookup(s.ci, s.store, q) == At(a, Canon(s.ci, q));
    }
  }

  lemma ReloadInv(s: Model)
    requires Inv(s)
    ensures Inv(Step(s, Op.Reload).0)
  {
    LoadTidy(s.ci, s.file);
    TidyFlatten(Load(s.ci, s.file));
  }

  lemma DropEmptyRepresents(s: Model, a: Plain)
    requires Sorted(s.ci, s.store) && Represents(s, a)
    ensures Represents(s.(store := DropEmpty(s.store)), a)
  {
    forall q ensures Lookup(s.ci, DropEmpty(s.store), q) == At(a, Canon(s.ci, q)) {
      DropEmptyLookup(s.ci, s.store, q);
      assert Lookup(s.ci, s.store, q) == At(a, Canon(s.ci, q));
    }
  }

  lemma ReloadRepresents(s: Model, a: Plain)
    requires Inv(s) && Represents(s, a) && PlainClean(s.ci, a)
    ensures Represents(Step(s, Op.Reload).0, a)
  {
    CleanIff(s, a);
    DropEmptyRepresents(s, a);
    assert Step(s, Op.Reload).0 == s.(store := DropEmpty(s.store));
  }

  /** One operation answers as the plain map does and keeps the invariant. */
  lemma StepRefines(s: Model, a: Plain, op: Op)
    requires Inv(s) && Represents(s, a)
    requires op.Reload? ==> PlainClean(s.ci, a)
    ensures Inv(Step(s, op).0) && Step(s, op).0.ci == s.ci
    ensures Represents(Step(s, op).0, PlainStep(s.ci, a, op).0)
    ensures Step(s, op).1 == PlainStep(s.ci, a, op).1
  {
    match op
    case Reload =>
      ReloadInv(s);
      ReloadRepresents(s, a);
    case GetAt(k, n, dflt) => ReadRefines(s, a, op, k);
    case GetVec(k) => ReadRefines(s, a, op, k);
    case _ => WriteRefines(s, a, op);
  }

  lemma ReadRefines(s: Model, a: Plain, op: Op, k: string)
    requires Inv(s) && Represents(s, a)
    requires (op.GetAt? || op.GetVec?) && op.k == k
    ensures Inv(Step(s, op).0) && Step(s, op).0.ci == s.ci
    ensures Represents(Step(s, op).0, PlainStep(s.ci, a, op).0)
    ensures Step(s, op).1 == PlainStep(s.ci, a, op).1
  {
    ReadyIsIdle(s);
    ReadSteps(s, a, op);
    TouchRepresents(s, a, k);
    assert Lookup(s.ci, s.store, k) == At(a, Canon(s.ci, k));
  }

  lemma ReadSteps(s: Model, a: Plain, op: Op)
    requires Ready(s) == s && (op.GetAt? || op.GetVec?)
    ensures Step(s, op).0 == s.(store := Touch(s.ci, s.store, op.k)) && PlainStep(s.ci, a, op).0 == a
    ensures Lookup(s.ci, s.store, op.k) == At(a, Canon(s.ci, op.k)) ==> Step(s, op).1 == PlainStep(s.ci, a, op).1
  {
  }

  /** The list that a write to one key leaves there. */
  function NewList(op: Op, l: seq<string>): seq<string>
    requires op.Add? || op.SetAt? || op.ClearKey?
  {
    match op
    case Add(k, v) => l + [v]
    case SetAt(k, n, v) => Filled(l, n, v)
    case ClearKey(k) => []
  }

  /** Resizing and then assigning keeps every other value. */
  lemma ResizedFilled(l: seq<string>, n: nat, v: string)
    ensures Resized(l, n + 1)[n := v] == Filled(l, n, v)
  {
  }

  lemma WriteSteps(s: Model, a: Plain, op: Op)
    requires Ready(s) == s && (op.Add? || op.SetAt? || op.ClearKey?)
    ensures Step(s, op) == (Written(s, Put(s.ci, s.store, op.k, NewList(op, Lookup(s.ci, s.store, op.k)))), Done)
    ensures PlainStep(s.ci, a, op) == (a[Canon(s.ci, op.k) := NewList(op, At(a, Canon(s.ci, op.k)))], Done)
  {
    if op.SetAt? {
      ResizedFilled(Lookup(s.ci, s.store, op.k), op.n, op.v);
    }
  }

  lemma WriteRefines(s: Model, a: Plain, op: Op)
    requires Inv(s) && Represents(s, a)
    requires op.Add? || op.SetAt? || op.ClearAll? || op.ClearKey?
    ensures Inv(Step(s, op).0) && Step(s, op).0.ci == s.ci
    ensures Represents(Step(s, op).0, PlainStep(s.ci, a, op).0)
    ensures Step(s, op).1 == PlainStep(s.ci, a, op).1
  {
    ReadyIsIdle(s);
    if op.ClearAll? {
      WrittenInv(s, []);
    } else {
      WriteSteps(s, a, op);
      assert Lookup(s.ci, s.store, op.k) == At(a, Canon(s.ci, op.k));
      PutRepresents(s, a, op.k, NewList(op, At(a, Canon(s.ci, op.k))));
    }
  }

  /** Whenever the file is loaded again on purpose, the map at that point fits it. */
  ghost predicate ReloadsFit(ci: bool, a: Plain, ops: seq<Op>)
    decreases ops
  {
    ops != [] ==>
      && (ops[0].Reload? ==> PlainClean(ci, a))
      && ReloadsFit(ci, PlainStep(ci, a, ops[0]).0, ops[1..])
  }

  /** The refinement: over a whole run, every answer is the plain map's. */
  lemma {:induction false} RunRefines(s: Model, a: Plain, ops: seq<Op>)
    requires Inv(s) && Represents(s, a)
    requires ReloadsFit(s.ci, a, ops)
    ensures Run(s, ops) == PlainRun(s.ci, a, ops)
    ensures Inv(After(s, ops)) && After(s, ops).ci == s.ci
    decreases ops
  {
    if ops == [] {
    } else {
      StepRefines(s, a, ops[0]);
      RunRefines(Step(s, ops[0]).0, PlainStep(s.ci, a, ops[0]).0, ops[1..]);
    }
  }

  // ----- runs from a file

  lemma {:induction false} PlainFillAt(ci: bool, a: Plain, ps: seq<Pair>, k: string)
    ensures At(PlainFill(ci, a, ps), Canon(ci, k)) == At(a, Canon(ci, k)) + Selected(ci, ps, k)
    decreases ps
  {
    if ps == [] {
    } else {
      PlainFillAt(ci, PlainStep(ci, a, Add(ps[0].0, ps[0].1)).0, ps[1..], k);
      Assoc(At(a, Canon(ci, k)), if Same(ci, ps[0].0, k) then [ps[0].1] else [], Selected(ci, ps[1..], k));
    }
  }

  /** Any state that has just loaded its file represents what the file says. */
  lemma LoadedRepresents(s: Model)
    requires s.store == Load(s.ci, s.file)
    ensures Inv(s) && Represents(s, PlainFile(s.ci, s.file))
  {
    LoadTidy(s.ci, s.file);
    TidyFlatten(s.store);
    forall k ensures Lookup(s.ci, s.store, k) == At(PlainFile(s.ci, s.file), Canon(s.ci, k)) {
      PlainFillAt(s.ci, map[], FilePairs(s.file), k);
    }
  }

  /** The constructor's saving loses nothing that a load could see. */
  lemma OpenedRepresents(text: string)
    ensures Inv(Opened(text)) && Represents(Opened(text), PlainFile(false, text))
    ensures PlainClean(false, PlainFile(false, text))
    ensures Opened(text).file == SaveText(Opened(text).store)
  {
    var read := Model(false, Load(false, text), text);
    LoadedRepresents(read);
    FileNormal(false, text);
    LoadTidy(false, text);
    TidyFlatten(Load(false, text));
    assert Opened(text).store == read.store;
    forall k ensures Lookup(false, Opened(text).store, k) == At(PlainFile(false, text), Canon(false, k)) {
      assert Lookup(read.ci, read.store, k) == At(PlainFile(false, text), Canon(false, k));
    }
    CleanIff(Opened(text), PlainFile(false, text));
  }

  /** Keys and values that a line of the file can hold. */
  ghost predicate CleanOp(op: Op) {
    match op
    case Add(k, v) => Clean((k, v))
    case SetAt(k, n, v) => Clean((k, v))
    case _ => true
  }

  lemma CleanOpKeeps(ci: bool, a: Plain, op: Op)
    requires PlainClean(ci, a) && CleanOp(op)
    ensures PlainClean(ci, PlainStep(ci, a, op).0)
  {
    var a' := PlainStep(ci, a, op).0;
    forall q | At(a', Canon(ci, q)) != [] ensures FitsFile(q, At(a', Canon(ci, q))) {
      assert At(a, Canon(ci, q)) != [] ==> FitsFile(q, At(a, Canon(ci, q)));
      if op.Add? || op.SetAt? {
        if Same(ci, op.k, q) {
          SameFree(ci, op.k, q);
        }
      }
    }
  }

  lemma {:induction false} CleanOpsFit(ci: bool, a: Plain, ops: seq<Op>)
    requires PlainClean(ci, a)
    requires forall i :: 0 <= i < |ops| ==> CleanOp(ops[i])
    ensures ReloadsFit(ci, a, ops)
    decreases ops
  {
    if ops == [] {
    } else {
      CleanOpKeeps(ci, a, ops[0]);
      assert forall i :: 0 <= i < |ops[1..]| ==> ops[1..][i] == ops[i + 1];
      CleanOpsFit(ci, PlainStep(ci, a, ops[0]).0, ops[1..]);
    }
  }

  lemma {:induction false} NoReloadFits(ci: bool, a: Plain, ops: seq<Op>)
    requires forall i :: 0 <= i < |ops| ==> !ops[i].Reload?
    ensures ReloadsFit(ci, a, ops)
    decreases ops
  {
    if ops == [] {
    } else {
      assert forall i :: 0 <= i < |ops[1..]| ==> ops[1..][i] == ops[i + 1];
      NoReloadFits(ci, PlainStep(ci, a, ops[0]).0, ops[1..]);
    }
  }

  /**
    A store opened on any file answers every run of clean operations, reloads included, as the plain map
    that the file describes.
   */
  lemma CleanRunsRefine(text: string, ops: seq<Op>)
    requires forall i :: 0 <= i < |ops| ==> CleanOp(ops[i])
    ensures Run(Opened(text), ops) == PlainRun(false, PlainFile(false, text), ops)
  {
    OpenedRepresents(text);
    CleanOpsFit(false, PlainFile(false, text), ops);
    RunRefines(Opened(text), PlainFile(false, text), ops);
  }

  /**
    Without a call of `reload`, any keys and values at all may be used: the loading that happens whenever
    memory is empty never changes an answer.
   */
  lemma UnreloadedRunsRefine(text: string, ops: seq<Op>)
    requires forall i :: 0 <= i < |ops| ==> !ops[i].Reload?
    ensures Run(Opened(text), ops) == PlainRun(false, PlainFile(false, text), ops)
  {
    OpenedRepresents(text);
    NoReloadFits(false, PlainFile(false, text), ops);
    RunRefines(Opened(text), PlainFile(false, text), ops);
  }

  lemma GetVecAnswer(s: Model, k: string)
    requires Inv(s)
    ensures Step(s, GetVec(k)).1 == List(Lookup(s.ci, s.store, k))
  {
    ReadyIsIdle(s);
  }

  /** What a store answers under `k`. */
  function Listed(s: Model, k: string): seq<string> {
    match Step(s, GetVec(k)).1
    case List(l) => l
    case _ => []
  }

  /** `l'` is `l` with `v` put in place `n`: place by place, with the gap before it filled by empty values. */
  ghost predicate PutInPlace(l: seq<string>, n: nat, v: string, l': seq<string>) {
    && |l'| == (if |l| > n + 1 then |l| else n + 1)
    && l'[n] == v
    && (forall i :: 0 <= i < |l'| && i != n && i < |l| ==> l'[i] == l[i])
    && (forall i :: 0 <= i < |l'| && i != n && i >= |l| ==> l'[i] == "")
  }

  /**
    After setting one value of a key, the list answered under any spelling of the key is the old one with that
    value in its place, and the list under every other key is the old one. The plain map does the same.
   */
  lemma SetThenGet(s: Model, a: Plain, k: string, n: nat, v: string, q: string)
    requires Inv(s)
    ensures var t := Step(s, SetAt(k, n, v)).0;
            if Same(s.ci, k, q) then PutInPlace(Listed(s, q), n, v, Listed(t, q)) else Listed(t, q) == Listed(s, q)
    ensures var (b, c) := (PlainStep(s.ci, a, SetAt(k, n, v)).0, Canon(s.ci, q));
            if Same(s.ci, k, q) then PutInPlace(At(a, c), n, v, At(b, c)) else At(b, c) == At(a, c)
  {
    ReadyIsIdle(s);
    WriteSteps(s, a, SetAt(k, n, v));
    WriteListed(s, k, Filled(Lookup(s.ci, s.store, k), n, v), q);
    GetVecAnswer(s, q);
    if Same(s.ci, k, q) {
      SameLookup(s.ci, s.store, k, q);
      FilledInPlace(Lookup(s.ci, s.store, k), n, v);
      FilledInPlace(At(a, Canon(s.ci, k)), n, v);
    }
  }

  lemma FilledInPlace(l: seq<string>, n: nat, v: string)
    ensures PutInPlace(l, n, v, Filled(l, n, v))
  {
  }

  /** Every operation on a key, reading included, leaves an entry for it. */
  lemma KeyEntered(s: Model, op: Op)
    requires Inv(s) && !op.ClearAll? && !op.Reload?
    ensures Has(s.ci, Step(s, op).0.store, op.k)
  {
    ReadyIsIdle(s);
    if op.GetAt? || op.GetVec? {
      SpellingStays(s.ci, s.store, op.k, []);
    } else {
      WriteSteps(s, map[], op);
      SpellingStays(s.ci, s.store, op.k, NewList(op, Lookup(s.ci, s.store, op.k)));
    }
  }

  /** What is answered after the list of one key has been written. */
  lemma WriteListed(s: Model, k: string, vals: seq<string>, q: string)
    requires Inv(s)
    ensures Listed(WriteKey(s, k, vals), q) == if Same(s.ci, k, q) then vals else Lookup(s.ci, s.store, q)
  {
    PutSorted(s.ci, s.store, k, vals);
    WrittenInv(s, Put(s.ci, s.store, k, vals));
    GetVecAnswer(WriteKey(s, k, vals), q);
    LookupPut(s.ci, s.store, k, vals, q);
  }

  /** Reloading leaves every answer alone. */
  ghost predicate ReloadHarmless(s: Model) {
    forall k :: Step(Step(s, Op.Reload).0, GetVec(k)).1 == Step(s, GetVec(k)).1
  }

  lemma ReloadHarmlessIff(s: Model)
    requires Inv(s)
    ensures ReloadHarmless(s) <==> SameAnswers(s.ci, Load(s.ci, s.file), s.store)
  {
    var t := Step(s, Op.Reload).0;
    ReloadInv(s);
    forall k
      ensures Step(t, GetVec(k)).1 == Step(s, GetVec(k)).1 <==> Lookup(s.ci, t.store, k) == Lookup(s.ci, s.store, k)
    {
      GetVecAnswer(s, k);
      GetVecAnswer(t, k);
    }
    if ReloadHarmless(s) {
      forall k ensures Lookup(s.ci, t.store, k) == Lookup(s.ci, s.store, k) {
        assert Step(t, GetVec(k)).1 == Step(s, GetVec(k)).1;
      }
    }
    if SameAnswers(s.ci, t.store, s.store) {
      forall k ensures Step(t, GetVec(k)).1 == Step(s, GetVec(k)).1 {
        assert Lookup(s.ci, t.store, k) == Lookup(s.ci, s.store, k);
      }
    }
  }

  /** Just after a write, reloading leaves every answer alone exactly when all that is held fits the file. */
  lemma ReloadIff(s: Model, a: Plain)
    requires Inv(s) && Represents(s, a) && s.file == SaveText(s.store)
    ensures ReloadHarmless(s) <==> PlainClean(s.ci, a)
  {
    ReloadHarmlessIff(s);
    CleanIff(s, a);
    PersistIff(s.ci, s.store);
  }

  /** What a line of the file cannot hold is there only while the file has just been saved. */
  ghost predicate SavedOrClean(s: Model) {
    Inv(s) && (AllClean(Flatten(s.store)) || s.file == SaveText(s.store))
  }

  lemma StepSavedOrClean(s: Model, op: Op)
    requires SavedOrClean(s)
    ensures SavedOrClean(Step(s, op).0) && Step(s, op).0.ci == s.ci
  {
    ReadyIsIdle(s);
    match op
    case Reload => ReloadSavedOrClean(s);
    case GetAt(k, n, dflt) => TouchSavedOrClean(s, k);
    case GetVec(k) => TouchSavedOrClean(s, k);
    case ClearAll => WrittenInv(s, []);
    case _ =>
      WriteSteps(s, map[], op);
      PutSavedOrClean(s, op.k, NewList(op, Lookup(s.ci, s.store, op.k)));
  }

  lemma ReloadSavedOrClean(s: Model)
    requires SavedOrClean(s)
    ensures SavedOrClean(Step(s, Op.Reload).0)
  {
    ReloadInv(s);
    LoadTidy(s.ci, s.file);
    TidyFlatten(Load(s.ci, s.file));
  }

  lemma TouchSavedOrClean(s: Model, k: string)
    requires SavedOrClean(s)
    ensures SavedOrClean(s.(store := Touch(s.ci, s.store, k)))
  {
    TouchInvisible(s.ci, s.store, k);
    LookupTouch(s.ci, s.store, k, k);
  }

  lemma PutSavedOrClean(s: Model, k: string, vals: seq<string>)
    requires Sorted(s.ci, s.store)
    ensures SavedOrClean(WriteKey(s, k, vals))
  {
    PutSorted(s.ci, s.store, k, vals);
    WrittenInv(s, Put(s.ci, s.store, k, vals));
  }

  lemma {:induction false} RunSavedOrClean(s: Model, ops: seq<Op>)
    requires SavedOrClean(s)
    ensures SavedOrClean(After(s, ops)) && After(s, ops).ci == s.ci
    decreases ops
  {
    if ops == [] {
    } else {
      StepSavedOrClean(s, ops[0]);
      RunSavedOrClean(Step(s, ops[0]).0, ops[1..]);
    }
  }

  lemma SavedOrCleanReload(s: Model)
    requires SavedOrClean(s)
    ensures ReloadHarmless(s) <==> AllClean(Flatten(s.store))
  {
    ReloadHarmlessIff(s);
    if AllClean(Flatten(s.store)) {
      forall k ensures Lookup(s.ci, Load(s.ci, s.file), k) == Lookup(s.ci, s.store, k) {
        DropEmptyLookup(s.ci, s.store, k);
      }
    } else {
      PersistIff(s.ci, s.store);
    }
  }

  /**
    After any run of any operations on any file, with explicit reloads or without, reloading leaves every
    answer alone exactly when the file can hold all that is in memory.
   */
  lemma RunReloadIff(text: string, ops: seq<Op>)
    ensures var s := After(Opened(text), ops);
            ReloadHarmless(s) <==> AllClean(Flatten(s.store))
  {
    OpenedRepresents(text);
    RunSavedOrClean(Opened(text), ops);
    SavedOrCleanReload(After(Opened(text), ops));
  }

  /** A key with a colon: after adding `v` under `a:b` to a new store, reloading loses it. */
  lemma ReloadLoses()
    ensures !ReloadHarmless(Step(Opened(""), Add("a:b", "v")).0)
  {
    var s, a, op := Opened(""), PlainFile(false, ""), Add("a:b", "v");
    OpenedRepresents("");
    StepRefines(s, a, op);
    var t, b := Step(s, op).0, PlainStep(false, a, op).0;
    assert "v" in At(b, "a:b") && "a:b"[1] == ':';
    assert !FitsFile("a:b", At(b, Canon(false, "a:b")));
    ReloadIff(t, b);
  }
}
