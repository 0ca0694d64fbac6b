/**
  Waiting in the flood controller while other channels are cleared. A clear moves the later channels up under
  a fixed position of the dispatcher, so that it can pass over the channel whose turn it is; that happens to
  one channel no more often than there were channels before it.
 */
module FloodClears {
  import opened Text
  import opened FloodControllers
  import opened FloodRuns

  /** There are never more than `n` channels. */
  ghost predicate AtMost(s: Ctl, es: seq<Event>, n: nat)
    decreases es
  {
    |s.keys| <= n && (es != [] ==> AtMost(Step(s, es[0]).0, es[1..], n))
  }

  function Place(s: Ctl, c: string): nat {
    IndexOf(s.keys, c)
  }

  lemma PlaceIs(s: Ctl, c: string, p: nat)
    requires Inv(s) && p < |s.keys| && s.keys[p] == c
    ensures Place(s, c) == p
  {
    assert Place(s, c) <= p;
  }

  lemma PlaceIn(s: Ctl, c: string)
    requires Inv(s)
    ensures Place(s, c) < |s.keys| <==> c in s.m
    ensures Queue(s, c) != [] ==> Place(s, c) < |s.keys|
  {
    assert c in s.keys ==> Place(s, c) < |s.keys|;
  }

  /** The event takes out a channel before `c` just when it is the turn of `c`. */
  predicate PassesOver(s: Ctl, c: string, e: Event) {
    e.Cleared? && Place(s, e.c) < Place(s, c) && s.idx + 1 == Place(s, c)
  }

  /** How often a clear makes the dispatcher pass over `c`. */
  function PassedOver(s: Ctl, c: string, es: seq<Event>): nat
    decreases es
  {
    if es == [] then 0
    else (if PassesOver(s, c, es[0]) then 1 else 0) + PassedOver(Step(s, es[0]).0, c, es[1..])
  }

  /** How many positions the dispatcher, at `idx`, goes through before `p`, if there are to be `n` channels. */
  function TurnsFrom(idx: nat, p: nat, n: nat): nat {
    if idx < p then p - idx - 1 else (if idx < n then n - idx - 1 else 0) + p
  }

  function Turns(s: Ctl, c: string, n: nat): nat {
    TurnsFrom(s.idx, Place(s, c), n)
  }

  /** Only sending adds a channel. */
  lemma {:induction false} NoNewChannels(s: Ctl, es: seq<Event>, n: nat)
    requires |s.keys| <= n && forall i :: 0 <= i < |es| ==> !es[i].Sent?
    ensures AtMost(s, es, n)
    decreases es
  {
    if es == [] {
    } else {
      assert forall i :: 0 <= i < |es[1..]| ==> es[1..][i] == es[i + 1];
      NoNewChannels(Step(s, es[0]).0, es[1..], n);
    }
  }

  // ----- one event

  /** The place of a channel after the event. */
  function NextPlace(s: Ctl, c: string, e: Event): nat {
    if e.Cleared? && Place(s, e.c) < Place(s, c) then Place(s, c) - 1 else Place(s, c)
  }

  lemma PlaceAfter(s: Ctl, c: string, e: Event)
    requires Inv(s) && Place(s, c) < |s.keys| && !e.ClearedAll? && e != Cleared(c)
    ensures var t := Step(s, e).0; Place(t, c) == NextPlace(s, c, e) < |t.keys|
  {
    var t, p := Step(s, e).0, Place(s, c);
    StepInv(s, e);
    if e.Cleared? {
      ClearedKeys(s, c, e.c);
    } else if e.Ticked? {
      TickCases(s);
    }
    PlaceIs(t, c, NextPlace(s, c, e));
  }

  lemma ClearedKeys(s: Ctl, c: string, d: string)
    requires Inv(s) && Place(s, c) < |s.keys| && c != d
    ensures var t, p := ClearOne(s, d), NextPlace(s, c, Cleared(d));
            p < |t.keys| && t.keys[p] == c && t.idx == s.idx
  {
    assert Place(s, d) != Place(s, c);
  }

  /** A tick serves `c` or brings it at least one turn closer. */
  lemma TickedWaits(s: Ctl, c: string, n: nat)
    requires Inv(s) && Queue(s, c) != [] && |s.keys| <= n
    ensures var (t, ran) := Tick(s);
            && Turns(t, c, n) + 1 <= (if RanOn(c, ran) == [] then Turns(s, c, n) else n)
            && |RanOn(c, ran)| <= 1
  {
    PlaceIn(s, c);
    PlaceAfter(s, c, Ticked);
    TickCases(s);
    TickCloser(s, Place(s, c), n);
  }

  lemma TickCloser(s: Ctl, p: nat, n: nat)
    requires Inv(s) && p < |s.keys| <= n && Queue(s, s.keys[p]) != []
    ensures var t := Tick(s).0;
            t.idx < n && TurnsFrom(t.idx, p, n) + 1 <= if t.idx == p then n else TurnsFrom(s.idx, p, n)
  {
    TickCases(s);
  }

  /** Every tick brings `c` a turn closer, unless it is served or passed over. */
  ghost predicate ComesCloser(s: Ctl, c: string, e: Event, n: nat) {
    var (t, ran) := Step(s, e);
    && |RanOn(c, ran)| <= 1
    && Turns(t, c, n) + (if e.Ticked? then 1 else 0) <=
         if RanOn(c, ran) != [] || PassesOver(s, c, e) then n else Turns(s, c, n)
  }

  /** What is queued for `c` after the event, and how many turns are left. */
  lemma StepWaits(s: Ctl, c: string, e: Event, n: nat)
    requires Inv(s) && Queue(s, c) != [] && |s.keys| <= n && !e.ClearedAll? && e != Cleared(c)
    ensures var (t, ran) := Step(s, e);
            && |Queue(s, c)| <= |RanOn(c, ran)| + |Queue(t, c)|
            && ComesCloser(s, c, e, n)
  {
    PlaceIn(s, c);
    match e
    case Ticked =>
      TickedWaits(s, c, n);
      TickQueue(s, c);
    case Sent(d, f) =>
      PlaceAfter(s, c, e);
      SendQueue(s, d, f, c);
    case Cleared(d) =>
      PlaceAfter(s, c, e);
      ClearOneQueue(s, d, c);
      ClearedTurns(s, c, d, n);
  }

  /** A clear of another channel puts `c` no further back, unless it makes the dispatcher pass over it. */
  lemma ClearedTurns(s: Ctl, c: string, d: string, n: nat)
    requires Place(s, c) < |s.keys| <= n
    ensures TurnsFrom(s.idx, NextPlace(s, c, Cleared(d)), n) <=
            if PassesOver(s, c, Cleared(d)) then n else Turns(s, c, n)
  {
  }

  // ----- whole runs

  /** The counts of a run, by its first event. */
  lemma RunStep(s: Ctl, c: string, es: seq<Event>)
    requires es != []
    ensures var (t, ran) := Step(s, es[0]);
            && Served(s, c, es) == |RanOn(c, ran)| + Served(t, c, es[1..])
            && PassedOver(s, c, es) == (if PassesOver(s, c, es[0]) then 1 else 0) + PassedOver(t, c, es[1..])
            && Ticks(es) == (if es[0].Ticked? then 1 else 0) + Ticks(es[1..])
  {
  }

  predicate Delays(s: Ctl, c: string, e: Event) {
    RanOn(c, Step(s, e).1) != [] || PassesOver(s, c, e)
  }

  /** How often `c` is served or passed over. */
  function Delayed(s: Ctl, c: string, es: seq<Event>): nat
    decreases es
  {
    if es == [] then 0 else (if Delays(s, c, es[0]) then 1 else 0) + Delayed(Step(s, es[0]).0, c, es[1..])
  }

  /** The same, `n` ticks for each. */
  function Cost(s: Ctl, c: string, es: seq<Event>, n: nat): nat
    decreases es
  {
    if es == [] then 0 else (if Delays(s, c, es[0]) then n else 0) + Cost(Step(s, es[0]).0, c, es[1..], n)
  }

  /** While `c` waits, the ticks are bounded by what the run costs it and its turns at first. */
  lemma {:induction false} WaitBound(s: Ctl, c: string, es: seq<Event>, n: nat)
    requires Inv(s) && Spares(c, es) && AtMost(s, es, n) && Served(s, c, es) < |Queue(s, c)|
    ensures Ticks(es) <= Cost(s, c, es, n) + Turns(s, c, n)
    decreases es
  {
    if es == [] {
    } else {
      StepInv(s, es[0]);
      SparesTail(c, es);
      StepWaits(s, c, es[0], n);
      WaitBound(Step(s, es[0]).0, c, es[1..], n);
    }
  }

  lemma {:induction false} CostIs(s: Ctl, c: string, es: seq<Event>, n: nat)
    ensures Cost(s, c, es, n) == Delayed(s, c, es) * n
    decreases es
  {
    if es == [] {
    } else {
      CostIs(Step(s, es[0]).0, c, es[1..], n);
      OneRoundMore(1 + Delayed(Step(s, es[0]).0, c, es[1..]), n);
    }
  }

  lemma {:induction false} DelayedAre(s: Ctl, c: string, es: seq<Event>)
    ensures Delayed(s, c, es) <= Served(s, c, es) + PassedOver(s, c, es)
    decreases es
  {
    if es == [] {
    } else {
      RunStep(s, c, es);
      DelayedAre(Step(s, es[0]).0, c, es[1..]);
    }
  }

  lemma WaitTicks(s: Ctl, c: string, es: seq<Event>, n: nat)
    requires Inv(s) && Spares(c, es) && AtMost(s, es, n) && Served(s, c, es) < |Queue(s, c)|
    ensures Ticks(es) < n + Cost(s, c, es, n)
  {
    PlaceIn(s, c);
    WaitBound(s, c, es, n);
  }

  /** A channel is passed over no more often than there are channels before it: each time one of them goes. */
  lemma {:induction false} PassedOverBound(s: Ctl, c: string, es: seq<Event>)
    requires Inv(s) && Spares(c, es) && Place(s, c) < |s.keys|
    ensures PassedOver(s, c, es) <= Place(s, c)
    decreases es
  {
    if es == [] {
    } else {
      StepInv(s, es[0]);
      SparesTail(c, es);
      PlaceAfter(s, c, es[0]);
      RunStep(s, c, es);
      PassedOverBound(Step(s, es[0]).0, c, es[1..]);
    }
  }

  /**
    Bounded waiting: in a run that clears any channels but `c`, and where there are never more than `n`, the
    k-th function queued on `c` is run within k rounds of `n` ticks and one more for each time that it was
    passed over.
   */
  lemma KthServedPassedOver(s: Ctl, c: string, k: nat, es: seq<Event>, n: nat, rounds: nat)
    requires Inv(s) && Spares(c, es) && AtMost(s, es, n) && k <= |Queue(s, c)|
    requires k + PassedOver(s, c, es) <= rounds && Ticks(es) >= rounds * n
    ensures Served(s, c, es) >= k
    ensures Queue(s, c)[..k] <= RanFor(s, c, [], es)
  {
    if Served(s, c, es) < k {
      WaitTicks(s, c, es, n);
      DelayedAre(s, c, es);
      CostIs(s, c, es, n);
      TooFew(Delayed(s, c, es), rounds, n);
      assert false;
    }
    ServedInOrder(s, c, k, es);
  }

  lemma TooFew(k: nat, rounds: nat, n: nat)
    requires k < rounds
    ensures n + k * n <= rounds * n
  {
    OneRoundMore(k + 1, n);
  }

  /** In terms of where the channel is at first: one more round for each channel before it. */
  lemma KthServedDespiteClears(s: Ctl, c: string, k: nat, es: seq<Event>, n: nat, rounds: nat)
    requires Inv(s) && Spares(c, es) && AtMost(s, es, n) && k <= |Queue(s, c)|
    requires k + Place(s, c) <= rounds && Ticks(es) >= rounds * n
    ensures Served(s, c, es) >= k
    ensures Queue(s, c)[..k] <= RanFor(s, c, [], es)
  {
    if k > 0 {
      PlaceIn(s, c);
      PassedOverBound(s, c, es);
      KthServedPassedOver(s, c, k, es, n, rounds);
    } else {
      ServedInOrder(s, c, k, es);
    }
  }

  // ----- one channel passed over

  const KEYS := ["a", "b", "c"]
  const START := Ctl(map["a" := [1], "b" := [2], "c" := [3, 4]], KEYS, 1)
  const AFTER_ONE := Ctl(map["a" := [1], "b" := [2], "c" := [4]], KEYS, 2)
  const AFTER_TWO := Ctl(map["a" := [], "b" := [2], "c" := [4]], KEYS, 0)
  const AFTER_CLEAR := Ctl(map["b" := [2], "c" := [4]], ["b", "c"], 0)
  const PASSING := [Ticked, Ticked, Cleared("a"), Ticked]

  lemma FirstTick()
    ensures Tick(START) == (AFTER_ONE, Some(Ran("c", 3)))
  {
    assert Target(START) == Some(2);
    assert Queue(START, "c") == [3, 4] && [3, 4][1..] == [4];
    assert START.m["c" := [4]] == AFTER_ONE.m;
    assert RunAt(START, 2).0 == AFTER_ONE;
  }

  lemma SecondTick()
    ensures Tick(AFTER_ONE) == (AFTER_TWO, Some(Ran("a", 1)))
  {
    assert Target(AFTER_ONE) == Some(0);
    assert Queue(AFTER_ONE, "a") == [1] && [1][1..] == [];
    assert AFTER_ONE.m["a" := []] == AFTER_TWO.m;
    assert RunAt(AFTER_ONE, 0).0 == AFTER_TWO;
  }

  lemma ThenCleared()
    ensures ClearOne(AFTER_TWO, "a") == AFTER_CLEAR && PassesOver(AFTER_TWO, "b", Cleared("a"))
  {
    assert KEYS[..0] + KEYS[1..] == ["b", "c"];
    assert AFTER_TWO.m - {"a"} == AFTER_CLEAR.m;
    assert KEYS[1..][0] == "b";
    assert IndexOf(KEYS[1..], "b") == 0;
  }

  lemma LastTick()
    ensures Tick(AFTER_CLEAR).1 == Some(Ran("c", 4)) && |Tick(AFTER_CLEAR).0.keys| == 2
  {
    assert Target(AFTER_CLEAR) == Some(1);
  }

  const TAIL := [Cleared("a"), Ticked]

  lemma EndCounts()
    ensures Served(AFTER_CLEAR, "b", [Ticked]) == 0 && PassedOver(AFTER_CLEAR, "b", [Ticked]) == 0
  {
    LastTick();
    RunStep(AFTER_CLEAR, "b", [Ticked]);
    assert [Ticked][1..] == [];
  }

  lemma PassingTail()
    ensures Served(AFTER_TWO, "b", TAIL) == 0 && PassedOver(AFTER_TWO, "b", TAIL) == 1
  {
    ThenCleared();
    assert TAIL[1..] == [Ticked];
    RunStep(AFTER_TWO, "b", TAIL);
    EndCounts();
  }

  lemma PassingCounts()
    ensures Served(START, "b", PASSING) == 0 && PassedOver(START, "b", PASSING) == 1
  {
    FirstTick();
    SecondTick();
    PassingTail();
    assert PASSING[1..] == [Ticked] + TAIL && ([Ticked] + TAIL)[1..] == TAIL;
    RunStep(AFTER_ONE, "b", [Ticked] + TAIL);
    RunStep(START, "b", PASSING);
  }

  lemma StartInv()
    ensures Inv(START) && |Queue(START, "b")| == 1
  {
  }

  lemma PassingTicks()
    ensures Ticks(PASSING) == 3 && Spares("b", PASSING)
  {
    assert PASSING[1..] == [Ticked] + TAIL && ([Ticked] + TAIL)[1..] == TAIL && TAIL[1..] == [Ticked];
    assert Ticks(TAIL) == 1;
  }

  /** With a clear, one round is not enough: `b` is not served in three ticks among three channels. */
  lemma ClearsDelay()
    ensures Inv(START) && AtMost(START, PASSING, 3) && Spares("b", PASSING) && |Queue(START, "b")| == 1
    ensures Ticks(PASSING) == 3 && Served(START, "b", PASSING) == 0 && PassedOver(START, "b", PASSING) == 1
  {
    StartInv();
    NoNewChannels(START, PASSING, 3);
    PassingCounts();
    PassingTicks();
  }
}
