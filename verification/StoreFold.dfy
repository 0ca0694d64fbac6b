/**
  Filling a store from key-value pairs in order, which is what loading a file and changing the order of the
  keys both come to, and reading the pairs of a store back in iteration order.
 */
module StoreFold {
  import opened Text
  import opened KeyOrder
  import opened StoreMap

  /** Pushing the pairs `ps` onto `st`, one after the other. */
  function Fill(ci: bool, st: seq<Entry>, ps: seq<Pair>): seq<Entry>
    decreases ps
  {
    if ps == [] then st else Fill(ci, Push(ci, st, ps[0].0, ps[0].1), ps[1..])
  }

  /** The values of one entry, each under its key. */
  function EntryPairs(e: Entry): seq<Pair> {
    seq(|e.vals|, i requires 0 <= i < |e.vals| => (e.key, e.vals[i]))
  }

  /** All pairs of a store in iteration order. */
  function Flatten(st: seq<Entry>): seq<Pair> {
    if st == [] then [] else EntryPairs(st[0]) + Flatten(st[1..])
  }

  /** The values that `ps` has under `k`, in any spelling and in order. */
  function Selected(ci: bool, ps: seq<Pair>, k: string): seq<string> {
    if ps == [] then []
    else (if Same(ci, ps[0].0, k) then [ps[0].1] else []) + Selected(ci, ps[1..], k)
  }

  /** The entries that have any values. */
  function DropEmpty(st: seq<Entry>): seq<Entry> {
    if st == [] then []
    else (if st[0].vals == [] then [] else [st[0]]) + DropEmpty(st[1..])
  }

  // ----- filling

  lemma {:induction false} FillConcat(ci: bool, st: seq<Entry>, ps: seq<Pair>, qs: seq<Pair>)
    ensures Fill(ci, st, ps + qs) == Fill(ci, Fill(ci, st, ps), qs)
    decreases ps
  {
    if ps == [] {
      assert ps + qs == qs;
    } else {
      FillConcat(ci, Push(ci, st, ps[0].0, ps[0].1), ps[1..], qs);
      TailConcat(ps, qs);
    }
  }

  lemma PushLookup(ci: bool, st: seq<Entry>, key: string, v: string, k: string)
    requires Sorted(ci, st)
    ensures Sorted(ci, Push(ci, st, key, v))
    ensures Lookup(ci, Push(ci, st, key, v), k) == Lookup(ci, st, k) + if Same(ci, key, k) then [v] else []
  {
    var vals := Lookup(ci, st, key) + [v];
    PutSorted(ci, st, key, vals);
    LookupPut(ci, st, key, vals, k);
    if Same(ci, key, k) {
      SameLookup(ci, st, key, k);
    }
  }

  lemma SameLookup(ci: bool, st: seq<Entry>, a: string, b: string)
    requires Sorted(ci, st) && Same(ci, a, b)
    ensures Lookup(ci, st, a) == Lookup(ci, st, b)
  {
    if Has(ci, st, a) {
      FoundAt(ci, st, b, LowerBound(ci, st, a));
    } else {
      NotFound(ci, st, a);
    }
  }

  /** After filling, each key has its old list and then the values pushed under any spelling of it, in order. */
  lemma {:induction false} FillLookup(ci: bool, st: seq<Entry>, ps: seq<Pair>, k: string)
    requires Sorted(ci, st)
    ensures Sorted(ci, Fill(ci, st, ps))
    ensures Lookup(ci, Fill(ci, st, ps), k) == Lookup(ci, st, k) + Selected(ci, ps, k)
    decreases ps
  {
    if ps == [] {
    } else {
      PushLookup(ci, st, ps[0].0, ps[0].1, k);
      FillLookup(ci, Push(ci, st, ps[0].0, ps[0].1), ps[1..], k);
      var head := if Same(ci, ps[0].0, k) then [ps[0].1] else [];
      Assoc(Lookup(ci, st, k), head, Selected(ci, ps[1..], k));
    }
  }

  lemma {:induction false} SelectedConcat(ci: bool, ps: seq<Pair>, qs: seq<Pair>, k: string)
    ensures Selected(ci, ps + qs, k) == Selected(ci, ps, k) + Selected(ci, qs, k)
  {
    if ps == [] {
      assert ps + qs == qs;
    } else {
      SelectedConcat(ci, ps[1..], qs, k);
      var head := if Same(ci, ps[0].0, k) then [ps[0].1] else [];
      TailConcat(ps, qs);
      Assoc(head, Selected(ci, ps[1..], k), Selected(ci, qs, k));
    }
  }

  lemma EntryPairsTail(key: string, vals: seq<string>)
    requires vals != []
    ensures EntryPairs(Entry(key, vals))[0] == (key, vals[0])
    ensures EntryPairs(Entry(key, vals))[1..] == EntryPairs(Entry(key, vals[1..]))
  {
  }

  lemma {:induction false} SelectedEntry(ci: bool, key: string, vals: seq<string>, k: string)
    ensures Selected(ci, EntryPairs(Entry(key, vals)), k) == if Same(ci, key, k) then vals else []
  {
    if vals == [] {
    } else {
      EntryPairsTail(key, vals);
      SelectedEntry(ci, key, vals[1..], k);
      assert vals == [vals[0]] + vals[1..];
    }
  }

  /** Reading a store's pairs under one key gives that key's list. */
  lemma {:induction false} FlattenSelected(ci: bool, st: seq<Entry>, k: string)
    requires Sorted(ci, st)
    ensures Selected(ci, Flatten(st), k) == Lookup(ci, st, k)
  {
    if st == [] {
    } else {
      FlattenSelected(ci, st[1..], k);
      SelectedConcat(ci, EntryPairs(st[0]), Flatten(st[1..]), k);
      SelectedEntry(ci, st[0].key, st[0].vals, k);
      LookupTail(ci, st, k);
    }
  }

  /** A key is looked up in the first entry or in the others. */
  lemma LookupTail(ci: bool, st: seq<Entry>, k: string)
    requires Sorted(ci, st) && st != []
    ensures Sorted(ci, st[1..])
    ensures Same(ci, st[0].key, k) ==> Lookup(ci, st, k) == st[0].vals && Lookup(ci, st[1..], k) == []
    ensures !Same(ci, st[0].key, k) ==> Lookup(ci, st, k) == Lookup(ci, st[1..], k)
  {
    if Same(ci, st[0].key, k) {
      FoundAt(ci, st, k, 0);
      TailLacks(ci, st, k);
    } else if Has(ci, st[1..], k) {
      FoundAt(ci, st, k, LowerBound(ci, st[1..], k) + 1);
    } else {
      NotFound(ci, st[1..], k);
      assert forall i :: 0 < i < |st| ==> st[i] == st[1..][i - 1];
    }
  }

  lemma TailLacks(ci: bool, st: seq<Entry>, k: string)
    requires Sorted(ci, st) && st != [] && Same(ci, st[0].key, k)
    ensures Lookup(ci, st[1..], k) == []
  {
    var i := LowerBound(ci, st[1..], k);
    if i < |st[1..]| {
      assert Less(ci, st[0].key, st[1..][i].key);
      LessIsStrictOrder(ci, st[0].key, st[1..][i].key, k);
    }
  }

  // ----- filling with the pairs of a sorted store rebuilds it

  lemma {:induction false} BoundAtEnd(ci: bool, st: seq<Entry>, k: string)
    requires forall i :: 0 <= i < |st| ==> Less(ci, st[i].key, k)
    ensures LowerBound(ci, st, k) == |st|
  {
  }

  lemma PushNew(ci: bool, st: seq<Entry>, k: string, v: string)
    requires forall i :: 0 <= i < |st| ==> Less(ci, st[i].key, k)
    ensures Push(ci, st, k, v) == st + [Entry(k, [v])]
  {
    BoundAtEnd(ci, st, k);
    assert [] + [v] == [v];
    assert Push(ci, st, k, v) == Splice(st, |st|, Entry(k, [v]), 0);
  }

  lemma PushLast(ci: bool, st: seq<Entry>, k: string, vals: seq<string>, v: string)
    requires Sorted(ci, st + [Entry(k, vals)])
    ensures Push(ci, st + [Entry(k, vals)], k, v) == st + [Entry(k, vals + [v])]
    ensures Sorted(ci, st + [Entry(k, vals + [v])])
  {
    var a, b := st + [Entry(k, vals)], st + [Entry(k, vals + [v])];
    FoundAt(ci, a, k, |st|);
    assert Push(ci, a, k, v) == Splice(a, |st|, Entry(k, vals + [v]), 1);
    assert forall i :: 0 <= i < |a| ==> a[i].key == b[i].key;
  }

  lemma {:induction false} FillLast(ci: bool, st: seq<Entry>, key: string, vals: seq<string>, more: seq<string>)
    requires Sorted(ci, st + [Entry(key, vals)])
    ensures Fill(ci, st + [Entry(key, vals)], EntryPairs(Entry(key, more))) == st + [Entry(key, vals + more)]
    decreases more
  {
    if more == [] {
      assert vals + more == vals;
    } else {
      PushLast(ci, st, key, vals, more[0]);
      EntryPairsTail(key, more);
      FillLast(ci, st, key, vals + [more[0]], more[1..]);
      MoveOne(vals, more);
    }
  }

  lemma SortedEnd(ci: bool, st: seq<Entry>, e: Entry, e': Entry)
    requires Sorted(ci, st + [e]) && e'.key == e.key
    ensures forall i :: 0 <= i < |st| ==> Less(ci, st[i].key, e.key)
    ensures Sorted(ci, st + [e'])
  {
    var a, b := st + [e], st + [e'];
    assert a[|st|] == e;
    assert forall i :: 0 <= i < |st| ==> a[i] == st[i];
    assert forall i :: 0 <= i < |a| ==> a[i].key == b[i].key;
  }

  lemma FillEntry(ci: bool, st: seq<Entry>, key: string, vals: seq<string>)
    requires Sorted(ci, st + [Entry(key, vals)])
    ensures Fill(ci, st, EntryPairs(Entry(key, vals))) == if vals == [] then st else st + [Entry(key, vals)]
  {
    if vals != [] {
      SortedEnd(ci, st, Entry(key, vals), Entry(key, [vals[0]]));
      PushNew(ci, st, key, vals[0]);
      EntryPairsTail(key, vals);
      FillLast(ci, st, key, [vals[0]], vals[1..]);
      assert [vals[0]] + vals[1..] == vals;
    }
  }

  lemma SortedParts(ci: bool, done: seq<Entry>, st: seq<Entry>)
    requires Sorted(ci, done + st) && st != []
    ensures Sorted(ci, done + [st[0]])
    ensures Sorted(ci, done + st[1..])
    ensures (done + [st[0]]) + st[1..] == done + st
  {
    var all, less := done + st, done + st[1..];
    assert forall i :: 0 <= i < |done| + 1 ==> (done + [st[0]])[i] == all[i];
    assert forall i :: 0 <= i < |less| ==> less[i] == all[if i < |done| then i else i + 1];
  }

  lemma {:induction false} FillFlattenOnto(ci: bool, done: seq<Entry>, st: seq<Entry>)
    requires Sorted(ci, done + st)
    ensures Fill(ci, done, Flatten(st)) == done + DropEmpty(st)
    decreases st
  {
    if st == [] {
      assert done + DropEmpty(st) == done;
    } else {
      SortedParts(ci, done, st);
      FillConcat(ci, done, EntryPairs(st[0]), Flatten(st[1..]));
      FillEntry(ci, done, st[0].key, st[0].vals);
      if st[0].vals == [] {
        FillFlattenOnto(ci, done, st[1..]);
        assert DropEmpty(st) == DropEmpty(st[1..]);
      } else {
        FillFlattenOnto(ci, done + [st[0]], st[1..]);
        Assoc(done, [st[0]], DropEmpty(st[1..]));
      }
    }
  }

  /** Filling an empty store with a sorted store's pairs gives that store without its empty lists. */
  lemma FillFlatten(ci: bool, st: seq<Entry>)
    requires Sorted(ci, st)
    ensures Fill(ci, [], Flatten(st)) == DropEmpty(st)
  {
    assert [] + st == st;
    FillFlattenOnto(ci, [], st);
    assert [] + DropEmpty(st) == DropEmpty(st);
  }

  lemma DropEmptyLookup(ci: bool, st: seq<Entry>, k: string)
    requires Sorted(ci, st)
    ensures Sorted(ci, DropEmpty(st))
    ensures Lookup(ci, DropEmpty(st), k) == Lookup(ci, st, k)
  {
    FillFlatten(ci, st);
    FillLookup(ci, [], Flatten(st), k);
    FlattenSelected(ci, st, k);
  }

  // ----- entries with empty lists do not show

  lemma {:induction false} FlattenConcat(s: seq<Entry>, t: seq<Entry>)
    ensures Flatten(s + t) == Flatten(s) + Flatten(t)
  {
    if s == [] {
      assert s + t == t;
    } else {
      FlattenConcat(s[1..], t);
      TailConcat(s, t);
      Assoc(EntryPairs(s[0]), Flatten(s[1..]), Flatten(t));
    }
  }

  lemma {:induction false} FlattenDropEmpty(st: seq<Entry>)
    ensures Flatten(DropEmpty(st)) == Flatten(st)
  {
    if st == [] {
    } else {
      FlattenDropEmpty(st[1..]);
      if st[0].vals == [] {
        assert EntryPairs(st[0]) == [];
        assert DropEmpty(st) == DropEmpty(st[1..]);
      } else {
        assert DropEmpty(st)[1..] == DropEmpty(st[1..]);
      }
    }
  }

  lemma {:induction false} DropEmptyConcat(s: seq<Entry>, t: seq<Entry>)
    ensures DropEmpty(s + t) == DropEmpty(s) + DropEmpty(t)
  {
    if s == [] {
      assert s + t == t;
    } else {
      DropEmptyConcat(s[1..], t);
      TailConcat(s, t);
      Assoc(if s[0].vals == [] then [] else [s[0]], DropEmpty(s[1..]), DropEmpty(t));
    }
  }

  /** Looking a key up leaves the pairs, and so the file, as they were. */
  lemma TouchInvisible(ci: bool, st: seq<Entry>, k: string)
    ensures Flatten(Touch(ci, st, k)) == Flatten(st)
    ensures DropEmpty(Touch(ci, st, k)) == DropEmpty(st)
  {
    if !Has(ci, st, k) {
      var n := LowerBound(ci, st, k);
      EmptyBetween(st[..n], k, st[n..], st, Touch(ci, st, k));
    }
  }

  lemma EmptyBetween(front: seq<Entry>, k: string, back: seq<Entry>, st: seq<Entry>, st': seq<Entry>)
    requires st == front + back && st' == front + ([Entry(k, [])] + back)
    ensures Flatten(st') == Flatten(st)
    ensures DropEmpty(st') == DropEmpty(st)
  {
    EmptyFirst(k, back);
    FlattenConcat(front, back);
    FlattenConcat(front, [Entry(k, [])] + back);
    DropEmptyConcat(front, back);
    DropEmptyConcat(front, [Entry(k, [])] + back);
  }

  lemma EmptyFirst(k: string, back: seq<Entry>)
    ensures Flatten([Entry(k, [])] + back) == Flatten(back)
    ensures DropEmpty([Entry(k, [])] + back) == DropEmpty(back)
  {
    assert ([Entry(k, [])] + back)[1..] == back;
    assert EntryPairs(Entry(k, [])) == [];
  }

  // ----- nothing is lost

  /** How often `v` is a value in a store. */
  function Held(st: seq<Entry>, v: string): nat {
    if st == [] then 0 else multiset(st[0].vals)[v] + Held(st[1..], v)
  }

  function HeldIn(ps: seq<Pair>, v: string): nat {
    if ps == [] then 0 else (if ps[0].1 == v then 1 else 0) + HeldIn(ps[1..], v)
  }

  lemma {:induction false} HeldConcat(s: seq<Entry>, t: seq<Entry>, v: string)
    ensures Held(s + t, v) == Held(s, v) + Held(t, v)
  {
    if s == [] {
      assert s + t == t;
    } else {
      HeldConcat(s[1..], t, v);
      TailConcat(s, t);
    }
  }

  lemma SpliceKeeps(st: seq<Entry>, n: nat, e: Entry, cut: nat, v: string, w: string)
    requires cut <= 1 && n + cut <= |st|
    requires e.vals == (if cut == 0 then [] else st[n].vals) + [v]
    ensures Held(Splice(st, n, e, cut), w) == Held(st, w) + if v == w then 1 else 0
  {
    var mid := st[n..n + cut];
    assert st == st[..n] + mid + st[n + cut..];
    HeldConcat(st[..n] + mid, st[n + cut..], w);
    HeldConcat(st[..n], mid, w);
    HeldConcat(st[..n] + [e], st[n + cut..], w);
    HeldConcat(st[..n], [e], w);
    assert Held([e], w) == multiset(e.vals)[w];
    assert cut == 1 ==> mid == [st[n]] && Held(mid, w) == multiset(st[n].vals)[w];
  }

  lemma PushKeeps(ci: bool, st: seq<Entry>, k: string, v: string, w: string)
    ensures Held(Push(ci, st, k, v), w) == Held(st, w) + if v == w then 1 else 0
  {
    var n := LowerBound(ci, st, k);
    if Has(ci, st, k) {
      SpliceKeeps(st, n, Entry(st[n].key, st[n].vals + [v]), 1, v, w);
    } else {
      SpliceKeeps(st, n, Entry(k, [] + [v]), 0, v, w);
    }
  }

  /** Filling neither loses nor invents a value. */
  lemma {:induction false} FillKeeps(ci: bool, st: seq<Entry>, ps: seq<Pair>, v: string)
    ensures Held(Fill(ci, st, ps), v) == Held(st, v) + HeldIn(ps, v)
    decreases ps
  {
    if ps == [] {
    } else {
      PushKeeps(ci, st, ps[0].0, ps[0].1, v);
      FillKeeps(ci, Push(ci, st, ps[0].0, ps[0].1), ps[1..], v);
    }
  }

  lemma {:induction false} HeldInConcat(ps: seq<Pair>, qs: seq<Pair>, v: string)
    ensures HeldIn(ps + qs, v) == HeldIn(ps, v) + HeldIn(qs, v)
  {
    if ps == [] {
      assert ps + qs == qs;
    } else {
      HeldInConcat(ps[1..], qs, v);
      TailConcat(ps, qs);
    }
  }

  lemma {:induction false} HeldInEntry(key: string, vals: seq<string>, v: string)
    ensures HeldIn(EntryPairs(Entry(key, vals)), v) == multiset(vals)[v]
  {
    if vals == [] {
    } else {
      HeldInEntry(key, vals[1..], v);
      EntryPairsTail(key, vals);
      assert vals == [vals[0]] + vals[1..];
    }
  }

  /** The pairs of a store carry exactly its values. */
  lemma {:induction false} HeldFlatten(st: seq<Entry>, v: string)
    ensures HeldIn(Flatten(st), v) == Held(st, v)
  {
    if st == [] {
    } else {
      HeldFlatten(st[1..], v);
      HeldInConcat(EntryPairs(st[0]), Flatten(st[1..]), v);
      HeldInEntry(st[0].key, st[0].vals, v);
    }
  }
}
