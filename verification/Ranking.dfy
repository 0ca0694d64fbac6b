/** The end of `get_oatop`: filtering, scoring, sorting and ranking the table of players. */
module Ranking {

  datatype KeyStats = KeyStats(name: string, kd: real, cd: real, pw: real, to: nat, overall: real, rank: nat)

  // Players with fewer opponents than this in all are not ranked.
  const LEAST_OPPONENTS := 20

  /** Whether the filter is on for a month, counted from 0. */
  predicate Filters(year: int, month: int) {
    year >= 2012 && month >= 5
  }

  /** The filter is that of June 2012 and every later month, except that it is off in the first five of later years. */
  lemma FiltersIff(year: int, month: int)
    requires 0 <= month <= 11
    ensures (Filters(year, month) <==> year > 2012 || (year == 2012 && month >= 5)) <==> !(year > 2012 && month < 5)
    ensures !Filters(2013, 0) && !Filters(2013, 4) && Filters(2013, 5)
  {
  }

  /** The entries that pass the filter, in order. */
  function Kept(v: seq<KeyStats>): seq<KeyStats> {
    if v == [] then []
    else (if v[0].to < LEAST_OPPONENTS then [] else [v[0]]) + Kept(v[1..])
  }

  /** The entries that are ranked. */
  function Entrants(v: seq<KeyStats>, year: int, month: int): seq<KeyStats> {
    if Filters(year, month) then Kept(v) else v
  }

  function Product(ks: KeyStats): real {
    ks.kd * ks.cd * ks.pw / 100.0
  }

  function WithScore(ks: KeyStats, round: real -> real): KeyStats {
    ks.(overall := round(Product(ks)))
  }

  /** The filter keeps every entry that passes, as often as it occurs, and nothing else. */
  lemma {:induction false} KeptIff(v: seq<KeyStats>, ks: KeyStats)
    ensures multiset(Kept(v))[ks] == if ks.to >= 20 then multiset(v)[ks] else 0
  {
    if v == [] {
    } else {
      KeptIff(v[1..], ks);
      assert v == [v[0]] + v[1..];
    }
  }

  /** A hundredth of the product of the three figures, and nothing else of the entry changes. */
  lemma ScoreIs(ks: KeyStats, round: real -> real)
    ensures Product(ks) * 100.0 == ks.kd * ks.cd * ks.pw
    ensures WithScore(ks, round) ==
            KeyStats(ks.name, ks.kd, ks.cd, ks.pw, ks.to, round(ks.kd * ks.cd * ks.pw / 100.0), ks.rank)
  {
  }

  /** Who is ranked: everyone, except those with fewer than 20 opponents when the filter is on. */
  lemma EntrantsIff(v: seq<KeyStats>, year: int, month: int, ks: KeyStats)
    ensures multiset(Entrants(v, year, month))[ks] ==
            if year >= 2012 && month >= 5 && ks.to < 20 then 0 else multiset(v)[ks]
  {
    KeptIff(v, ks);
  }

  /** Every entry with its overall score; `round` is printing to two places and reading back. */
  function Scored(v: seq<KeyStats>, round: real -> real): seq<KeyStats> {
    seq(|v|, i requires 0 <= i < |v| => WithScore(v[i], round))
  }

  ghost predicate Descending(v: seq<KeyStats>) {
    forall i, j :: 0 <= i < j < |v| ==> v[i].overall >= v[j].overall
  }

  /** How many entries have a strictly greater score than `x`. */
  function Greater(v: seq<KeyStats>, x: real): nat {
    if v == [] then 0 else (if v[0].overall > x then 1 else 0) + Greater(v[1..], x)
  }

  /** The rank that the loop gives to a score in the table `v`. */
  function RankOf(v: seq<KeyStats>, x: real): nat {
    if v != [] && v[0].overall == 0.0 && x == 0.0 then 0 else 1 + Greater(v, x)
  }

  function Ranked(v: seq<KeyStats>): seq<KeyStats> {
    seq(|v|, i requires 0 <= i < |v| => v[i].(rank := RankOf(v, v[i].overall)))
  }

  class Table {
    var v: seq<KeyStats>

    constructor (v: seq<KeyStats>)
      ensures this.v == v
    {
      this.v := v;
    }

    /** Filter, score, sort and rank. */
    method Finish(year: int, month: int, round: real -> real)
      modifies this
      ensures exists s :: Descending(s) && v == Ranked(s) &&
                multiset(s) == multiset(Scored(Entrants(old(v), year, month), round))
      ensures Descending(v) && (CompetitionRanked(v) <==> !TopIsZero(Entrants(old(v), year, month), round))
    {
      ghost var entrants := Entrants(v, year, month);
      if Filters(year, month) {
        RemoveUntried();
      }
      Score(round);
      Sort();
      TopSorted(entrants, v, round);
      RankingIff(v);
      Rank();
    }

    /** Takes out the entries with too few opponents. */
    method RemoveUntried()
      modifies this
      ensures v == Kept(old(v))
    {
      var kept := [];
      for i := 0 to |v|
        invariant v == old(v) && kept + Kept(v[i..]) == Kept(v)
      {
        assert v[i..][1..] == v[i + 1..];
        if v[i].to >= LEAST_OPPONENTS {
          assert kept + ([v[i]] + Kept(v[i + 1..])) == kept + [v[i]] + Kept(v[i + 1..]);
          kept := kept + [v[i]];
        }
      }
      assert v[|v|..] == [];
      v := kept;
    }

    method Score(round: real -> real)
      modifies this
      ensures v == Scored(old(v), round)
    {
      for i := 0 to |v|
        invariant |v| == |old(v)|
        invariant forall j :: 0 <= j < i ==> v[j] == Scored(old(v), round)[j]
        invariant forall j :: i <= j < |v| ==> v[j] == old(v)[j]
      {
        v := v[i := WithScore(v[i], round)];
      }
    }

    /** `std::sort` by descending score: some descending order of the same entries. */
    method Sort()
      modifies this
      ensures Descending(v) && multiset(v) == multiset(old(v))
    {
      var r := [];
      for i := 0 to |v|
        invariant v == old(v) && Descending(r) && multiset(r) == multiset(v[..i])
      {
        r := Insert(r, v[i]);
        assert v[..i + 1] == v[..i] + [v[i]];
      }
      assert v[..|v|] == v;
      v := r;
    }

    /** The ranking loop: equal scores share a rank, and the next score skips as many. */
    method Rank()
      requires Descending(v)
      modifies this
      ensures v == Ranked(old(v))
    {
      var rank, prev, d := 0, 0.0, 1;
      for i := 0 to |v|
        invariant |v| == |old(v)| && rank + d == i + 1 && d > 0
        invariant prev == if i == 0 then 0.0 else old(v)[i - 1].overall
        invariant i > 0 ==> rank == RankOf(old(v), prev)
        invariant i == 0 ==> rank == 0
        invariant forall j :: 0 <= j < i ==> v[j] == Ranked(old(v))[j]
        invariant forall j :: i <= j < |v| ==> v[j] == old(v)[j]
      {
        var s := v[i];
        if s.overall != prev {
          rank := rank + d;
          d := 1;
        } else {
          d := d + 1;
        }
        if i == 0 || s.overall != prev {
          FirstOfRun(old(v), i);
        }
        prev := s.overall;
        v := v[i := s.(rank := rank)];
      }
    }
  }

  method Insert(r: seq<KeyStats>, x: KeyStats) returns (t: seq<KeyStats>)
    requires Descending(r)
    ensures Descending(t) && multiset(t) == multiset(r) + multiset{x}
  {
    var k := 0;
    while k < |r| && r[k].overall > x.overall
      invariant k <= |r|
      invariant forall j :: 0 <= j < k ==> r[j].overall > x.overall
    {
      k := k + 1;
    }
    Inserted(r, x, k);
    t := r[..k] + [x] + r[k..];
  }

  lemma Inserted(r: seq<KeyStats>, x: KeyStats, k: nat)
    requires Descending(r) && k <= |r|
    requires forall j :: 0 <= j < k ==> r[j].overall > x.overall
    requires k < |r| ==> r[k].overall <= x.overall
    ensures Descending(r[..k] + [x] + r[k..])
    ensures multiset(r[..k] + [x] + r[k..]) == multiset(r) + multiset{x}
  {
    assert r == r[..k] + r[k..];
    forall j | k <= j < |r| ensures r[j].overall <= x.overall {
      assert r[k].overall >= r[j].overall;
    }
  }

  lemma {:induction false} GreaterNone(v: seq<KeyStats>, x: real)
    requires forall j :: 0 <= j < |v| ==> v[j].overall <= x
    ensures Greater(v, x) == 0
  {
    if v == [] {
    } else {
      GreaterNone(v[1..], x);
    }
  }

  lemma {:induction false} GreaterSplit(v: seq<KeyStats>, x: real, k: nat)
    requires k <= |v|
    requires forall j :: 0 <= j < k ==> v[j].overall > x
    requires forall j :: k <= j < |v| ==> v[j].overall <= x
    ensures Greater(v, x) == k
  {
    if k == 0 {
      GreaterNone(v, x);
    } else {
      GreaterSplit(v[1..], x, k - 1);
    }
  }

  /** The first entry of a run of equal scores has exactly the entries before it above it. */
  lemma FirstOfRun(v: seq<KeyStats>, i: nat)
    requires Descending(v) && i < |v|
    requires i > 0 ==> v[i - 1].overall != v[i].overall
    ensures Greater(v, v[i].overall) == i
  {
    forall j | 0 <= j < i ensures v[j].overall > v[i].overall {
      assert v[j].overall >= v[i - 1].overall >= v[i].overall;
    }
    GreaterSplit(v, v[i].overall, i);
  }

  /** Standard competition ranking: one more than the number of entries with a greater score. */
  ghost predicate CompetitionRanked(v: seq<KeyStats>) {
    forall i :: 0 <= i < |v| ==> v[i].rank == 1 + Greater(v, v[i].overall)
  }

  lemma {:induction false} GreaterSame(v: seq<KeyStats>, w: seq<KeyStats>, x: real)
    requires |v| == |w| && forall i :: 0 <= i < |v| ==> v[i].overall == w[i].overall
    ensures Greater(v, x) == Greater(w, x)
  {
    if v == [] {
    } else {
      GreaterSame(v[1..], w[1..], x);
    }
  }

  /** The greatest score is zero. */
  ghost predicate TopIsZero(v: seq<KeyStats>, round: real -> real) {
    && (exists i :: 0 <= i < |v| && round(v[i].kd * v[i].cd * v[i].pw / 100.0) == 0.0)
    && forall i :: 0 <= i < |v| ==> round(v[i].kd * v[i].cd * v[i].pw / 100.0) <= 0.0
  }

  lemma TopSorted(v: seq<KeyStats>, s: seq<KeyStats>, round: real -> real)
    requires Descending(s) && multiset(s) == multiset(Scored(v, round))
    ensures TopIsZero(v, round) <==> s != [] && s[0].overall == 0.0
  {
    var w := Scored(v, round);
    forall i | 0 <= i < |v| ensures s != [] && round(Product(v[i])) <= s[0].overall {
      assert w[i] in multiset(s);
      var j :| 0 <= j < |s| && s[j] == w[i];
      assert j > 0 ==> s[0].overall >= s[j].overall;
    }
    if s != [] {
      assert s[0] in multiset(w);
      var k :| 0 <= k < |v| && w[k] == s[0];
      assert round(Product(v[k])) == s[0].overall;
    }
  }

  /** A player whose score is zero is ranked 0 when no one else is ranked, and not 1. */
  lemma ZeroAlone(ks: KeyStats, round: real -> real)
    requires ks.kd == 0.0 && round(0.0) == 0.0
    ensures Ranked(Scored([ks], round))[0].rank == 0 && !CompetitionRanked(Ranked(Scored([ks], round)))
  {
    var s := Scored([ks], round);
    assert Product(ks) == 0.0;
    RankingIff(s);
  }

  /** The loop ranks a table as a competition does exactly when it is empty or its top score is not zero. */
  lemma RankingIff(v: seq<KeyStats>)
    requires Descending(v)
    ensures CompetitionRanked(Ranked(v)) <==> v == [] || v[0].overall != 0.0
    ensures Descending(Ranked(v))
  {
    var r := Ranked(v);
    forall i | 0 <= i < |v| ensures Greater(r, r[i].overall) == Greater(v, v[i].overall) {
      GreaterSame(r, v, v[i].overall);
    }
    if v != [] && v[0].overall == 0.0 {
      assert r[0].rank == 0;
    }
  }
}
