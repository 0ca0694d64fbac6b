/**
  `str_vec_map`, the `std::map` from keys to lists of values behind a store, as its entries in iteration order.
 */
module StoreMap {
  import opened KeyOrder
  import opened Text

  datatype Entry = Entry(key: string, vals: seq<string>)

  /** Keys strictly ascending: what a `std::map` with comparator `ci_cmp_type(ci)` keeps. */
  ghost predicate Sorted(ci: bool, st: seq<Entry>) {
    forall i, j :: 0 <= i < j < |st| ==> Less(ci, st[i].key, st[j].key)
  }

  /** The first entry whose key is not before `k`. */
  function LowerBound(ci: bool, st: seq<Entry>, k: string): (n: nat)
    ensures n <= |st|
    ensures forall i :: 0 <= i < n ==> Less(ci, st[i].key, k)
    ensures n < |st| ==> !Less(ci, st[n].key, k)
  {
    BoundFrom(ci, st, k, 0)
  }

  function BoundFrom(ci: bool, st: seq<Entry>, k: string, i: nat): (n: nat)
    requires i <= |st|
    ensures i <= n <= |st|
    ensures forall j :: i <= j < n ==> Less(ci, st[j].key, k)
    ensures n < |st| ==> !Less(ci, st[n].key, k)
    decreases |st| - i
  {
    if i == |st| || !Less(ci, st[i].key, k) then i else BoundFrom(ci, st, k, i + 1)
  }

  predicate Has(ci: bool, st: seq<Entry>, k: string) {
    var n := LowerBound(ci, st, k);
    n < |st| && Same(ci, st[n].key, k)
  }

  /** The list under `k`, empty when there is no entry. */
  function Lookup(ci: bool, st: seq<Entry>, k: string): seq<string> {
    if Has(ci, st, k) then st[LowerBound(ci, st, k)].vals else []
  }

  /** `st` with `e` at `n`, in place of `cut` entries. */
  function Splice(st: seq<Entry>, n: nat, e: Entry, cut: nat): (r: seq<Entry>)
    requires n + cut <= |st|
    ensures |r| == |st| + 1 - cut
    ensures r[n] == e
    ensures forall i :: 0 <= i < n ==> r[i] == st[i]
    ensures forall i :: n < i < |r| ==> r[i] == st[i - 1 + cut]
  {
    st[..n] + [e] + st[n + cut..]
  }

  /** What subscripting with `k` does: an entry for it is there afterwards, with an empty list if it is new. */
  function Touch(ci: bool, st: seq<Entry>, k: string): seq<Entry> {
    if Has(ci, st, k) then st
    else
      Splice(st, LowerBound(ci, st, k), Entry(k, []), 0)
  }

  /** Giving `k` the list `vals`: an entry that is there keeps the spelling of its key. */
  function Put(ci: bool, st: seq<Entry>, k: string, vals: seq<string>): seq<Entry> {
    var n := LowerBound(ci, st, k);
    if Has(ci, st, k) then Splice(st, n, Entry(st[n].key, vals), 1) else Splice(st, n, Entry(k, vals), 0)
  }

  /** Appending `v` to the list of `k`. */
  function Push(ci: bool, st: seq<Entry>, k: string, v: string): seq<Entry> {
    Put(ci, st, k, Lookup(ci, st, k) + [v])
  }

  lemma FoundAt(ci: bool, st: seq<Entry>, k: string, i: nat)
    requires Sorted(ci, st) && i < |st| && Same(ci, st[i].key, k)
    ensures LowerBound(ci, st, k) == i && Has(ci, st, k) && Lookup(ci, st, k) == st[i].vals
  {
    var n := LowerBound(ci, st, k);
    LessIsStrictOrder(ci, st[i].key, k, k);
    assert n < i ==> Less(ci, st[n].key, st[i].key);
  }

  lemma NotFound(ci: bool, st: seq<Entry>, k: string)
    requires Sorted(ci, st) && !Has(ci, st, k)
    ensures forall i :: LowerBound(ci, st, k) <= i < |st| ==> Less(ci, k, st[i].key)
    ensures forall i :: 0 <= i < |st| ==> !Same(ci, st[i].key, k)
  {
    var n := LowerBound(ci, st, k);
    if n < |st| {
      LessIsStrictOrder(ci, k, st[n].key, k);
    }
    forall i | 0 <= i < |st|
      ensures n <= i ==> Less(ci, k, st[i].key)
      ensures !Same(ci, st[i].key, k)
    {
      if n < i {
        LessIsStrictOrder(ci, k, st[n].key, st[i].key);
      }
      LessIsStrictOrder(ci, st[i].key, k, k);
      LessIsStrictOrder(ci, k, st[i].key, k);
    }
  }

  lemma PutSorted(ci: bool, st: seq<Entry>, k: string, vals: seq<string>)
    requires Sorted(ci, st)
    ensures Sorted(ci, Put(ci, st, k, vals))
  {
    if !Has(ci, st, k) {
      NotFound(ci, st, k);
    }
  }

  /** Writing one key gives that key, in any spelling, the new list and leaves all others alone. */
  lemma LookupPut(ci: bool, st: seq<Entry>, k: string, vals: seq<string>, q: string)
    requires Sorted(ci, st)
    ensures Lookup(ci, Put(ci, st, k, vals), q) == if Same(ci, k, q) then vals else Lookup(ci, st, q)
  {
    PutSorted(ci, st, k, vals);
    if Same(ci, k, q) {
      FoundAt(ci, Put(ci, st, k, vals), q, LowerBound(ci, st, k));
    } else if Has(ci, st, q) {
      LookupPutOther(ci, st, k, vals, q);
    } else {
      NotFound(ci, st, q);
      assert forall i :: 0 <= i < |Put(ci, st, k, vals)| ==> !Same(ci, Put(ci, st, k, vals)[i].key, q);
    }
  }

  lemma LookupPutOther(ci: bool, st: seq<Entry>, k: string, vals: seq<string>, q: string)
    requires Sorted(ci, st) && Has(ci, st, q) && !Same(ci, k, q)
    ensures Lookup(ci, Put(ci, st, k, vals), q) == Lookup(ci, st, q)
  {
    PutSorted(ci, st, k, vals);
    var n, i := LowerBound(ci, st, k), LowerBound(ci, st, q);
    if Has(ci, st, k) {
      LookupSplice(ci, st, n, Entry(st[n].key, vals), 1, q, i);
    } else {
      LookupSplice(ci, st, n, Entry(k, vals), 0, q, i);
    }
  }

  /** An entry that is not cut out is still found. */
  lemma LookupSplice(ci: bool, st: seq<Entry>, n: nat, e: Entry, cut: nat, q: string, i: nat)
    requires n + cut <= |st| && cut <= 1 && i < |st| && (i < n || i >= n + cut)
    requires Sorted(ci, Splice(st, n, e, cut)) && Same(ci, st[i].key, q)
    ensures Lookup(ci, Splice(st, n, e, cut), q) == st[i].vals
  {
    FoundAt(ci, Splice(st, n, e, cut), q, if i < n then i else i + 1 - cut);
  }

  /** Subscripting with `k` changes no answer. */
  lemma LookupTouch(ci: bool, st: seq<Entry>, k: string, q: string)
    requires Sorted(ci, st)
    ensures Sorted(ci, Touch(ci, st, k))
    ensures Lookup(ci, Touch(ci, st, k), q) == Lookup(ci, st, q)
  {
    if !Has(ci, st, k) {
      PutSorted(ci, st, k, []);
      LookupPut(ci, st, k, [], q);
      assert Touch(ci, st, k) == Put(ci, st, k, []);
      if Same(ci, k, q) {
        NotFound(ci, st, k);
        assert !Has(ci, st, q);
      }
    }
  }

  /** Reading or writing a key enters it as it is spelled, unless it is there: then its spelling stays. */
  lemma SpellingStays(ci: bool, st: seq<Entry>, k: string, vals: seq<string>)
    requires Sorted(ci, st)
    ensures Has(ci, Touch(ci, st, k), k) && Has(ci, Put(ci, st, k, vals), k)
    ensures var n := LowerBound(ci, st, k);
            var key := if Has(ci, st, k) then st[n].key else k;
            && Touch(ci, st, k)[LowerBound(ci, Touch(ci, st, k), k)].key == key
            && Put(ci, st, k, vals)[LowerBound(ci, Put(ci, st, k, vals), k)].key == key
    ensures |Touch(ci, st, k)| == |Put(ci, st, k, vals)| == if Has(ci, st, k) then |st| else |st| + 1
  {
    PutSorted(ci, st, k, vals);
    LookupTouch(ci, st, k, k);
    FoundAt(ci, Put(ci, st, k, vals), k, LowerBound(ci, st, k));
    FoundAt(ci, Touch(ci, st, k), k, LowerBound(ci, st, k));
  }
}
