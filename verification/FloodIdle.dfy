/** Where the dispatcher stands: after idle rounds, after sends and clears, and which channel is served from there. */
module FloodIdle {
  import opened Text
  import opened FloodControllers
  import opened FloodRuns

  /** Nothing is queued. */
  ghost predicate Idle(s: Ctl) {
    forall c :: Queue(s, c) == []
  }

  /** A tick with nothing queued only moves the dispatcher on by one position, from the last back to the first. */
  lemma IdleTick(s: Ctl)
    requires Idle(s)
    ensures Tick(s) == (s.(idx := if s.idx + 1 < |s.keys| then s.idx + 1 else 0), None)
  {
  }

  function TickTimes(j: nat): seq<Event> {
    seq(j, _ => Ticked)
  }

  /** The position after `j` moves from `p` among `n`. */
  function Moved(p: nat, j: nat, n: nat): nat {
    if j == 0 then p
    else if Moved(p, j - 1, n) + 1 < n then Moved(p, j - 1, n) + 1 else 0
  }

  lemma {:induction false} MovedIs(p: nat, j: nat, n: nat)
    requires p < n
    ensures Moved(p, j, n) == (p + j) % n
  {
    if j == 0 {
      ModIs(p, n, 0, p);
    } else {
      MovedIs(p, j - 1, n);
      NextPosition(p + j - 1, n);
    }
  }

  lemma NextPosition(x: nat, n: nat)
    requires n > 0
    ensures (if x % n + 1 < n then x % n + 1 else 0) == (x + 1) % n
  {
    var q, r := x / n, x % n;
    assert x == n * q + r;
    if r + 1 < n {
      ModIs(x + 1, n, q, r + 1);
    } else {
      assert n * (q + 1) == n * q + n;
      ModIs(x + 1, n, q + 1, 0);
    }
  }

  lemma ModIs(x: nat, n: nat, q: nat, r: nat)
    requires r < n && x == n * q + r
    ensures x % n == r
  {
    var d: int := q - x / n;
    assert n * (x / n) + x % n == n * q + r;
    assert n * d == n * q - n * (x / n);
    assert d > 0 ==> n * d >= n;
    assert d < 0 ==> n * d + n <= 0;
  }

  lemma IdleMove(s: Ctl, p: nat)
    requires Idle(s)
    ensures Step(s.(idx := p), Ticked).0 == s.(idx := if p + 1 < |s.keys| then p + 1 else 0)
  {
    forall c ensures Queue(s.(idx := p), c) == [] {
      assert Queue(s, c) == [];
    }
    IdleTick(s.(idx := p));
  }

  lemma {:induction false} IdleMoves(s: Ctl, j: nat)
    requires Idle(s)
    ensures After(s, TickTimes(j)) == s.(idx := Moved(s.idx, j, |s.keys|))
  {
    if j == 0 {
    } else {
      IdleMoves(s, j - 1);
      AfterLast(s, TickTimes(j - 1), Ticked);
      assert TickTimes(j) == TickTimes(j - 1) + [Ticked];
      IdleMove(s, Moved(s.idx, j - 1, |s.keys|));
    }
  }

  /** After `j` ticks with nothing queued the dispatcher stands `j` positions on, going round. */
  lemma IdleTicks(s: Ctl, j: nat, p: nat)
    requires s.idx < |s.keys| && Idle(s) && p == (s.idx + j) % |s.keys|
    ensures After(s, TickTimes(j)) == s.(idx := p)
  {
    MovedIs(s.idx, j, |s.keys|);
    IdleMoves(s, j);
  }

  lemma {:induction false} AfterConcat(s: Ctl, es: seq<Event>, fs: seq<Event>)
    ensures After(s, es + fs) == After(After(s, es), fs)
    decreases es
  {
    if es == [] {
      assert es + fs == fs;
    } else {
      TailConcat(es, fs);
      AfterConcat(Step(s, es[0]).0, es[1..], fs);
    }
  }

  lemma AfterLast(s: Ctl, es: seq<Event>, e: Event)
    ensures After(s, es + [e]) == Step(After(s, es), e).0
  {
    AfterConcat(s, es, [e]);
    assert After(After(s, es), [e]) == After(Step(After(s, es), e).0, []);
  }

  /** Only ticks move the dispatcher: sending and clearing leave its position alone. */
  lemma {:induction false} PositionKept(s: Ctl, es: seq<Event>)
    requires forall i :: 0 <= i < |es| ==> !es[i].Ticked?
    ensures After(s, es).idx == s.idx
    decreases es
  {
    if es == [] {
    } else {
      assert forall i :: 0 <= i < |es[1..]| ==> es[1..][i] == es[i + 1];
      PositionKept(Step(s, es[0]).0, es[1..]);
    }
  }

  /** The position `d` steps after `p` among `n`, going round. */
  function Round(p: nat, d: nat, n: nat): (r: nat)
    requires p < n && d < n
    ensures r < n
  {
    if p + d < n then p + d else p + d - n
  }

  /**
    From position `p`, the first busy channel going round is the one `d` places after the following position:
    the channel at `i`.
   */
  ghost predicate NextBusy(s: Ctl, p: nat, d: nat, i: nat) {
    && d < |s.keys|
    && var first := if p + 1 < |s.keys| then p + 1 else 0;
       && i == Round(first, d, |s.keys|)
       && Queue(s, s.keys[i]) != []
       && forall e :: 0 <= e < d ==> Queue(s, s.keys[Round(first, e, |s.keys|)]) == []
  }

  /** The next tick serves the first busy channel after the position where the dispatcher stands. */
  lemma NextServed(s: Ctl, d: nat, i: nat)
    requires Inv(s) && NextBusy(s, s.idx, d, i)
    ensures Tick(s).0.idx == i && Tick(s).1 == Some(Ran(s.keys[i], Queue(s, s.keys[i])[0]))
  {
    TickCases(s);
    assert Tick(s).1.Some?;
    var t := Tick(s).0.idx;
    OnwardDistance(s, t);
    OnwardDistance(s, d);
    assert Onward(s, d) == i;
    assert t == Round(Start(s), Distance(s, t), |s.keys|);
    assert Distance(s, t) == d;
  }

  /**
    Nothing queued, `j` ticks, then any sends: the tick after those serves the first busy channel after the
    position `j` places on from where the dispatcher stood.
   */
  lemma IdleThenServed(s: Ctl, j: nat, es: seq<Event>, d: nat, i: nat)
    requires Inv(s) && s.idx < |s.keys| && Idle(s)
    requires forall k :: 0 <= k < |es| ==> es[k].Sent?
    requires NextBusy(After(s, TickTimes(j) + es), (s.idx + j) % |s.keys|, d, i)
    ensures var t := After(s, TickTimes(j) + es);
            Tick(t).1 == Some(Ran(t.keys[i], Queue(t, t.keys[i])[0]))
  {
    var t := After(s, TickTimes(j) + es);
    StandsAt(s, j, es, (s.idx + j) % |s.keys|);
    RunInv(s, TickTimes(j) + es);
    NextServed(t, d, i);
  }

  lemma StandsAt(s: Ctl, j: nat, es: seq<Event>, p: nat)
    requires s.idx < |s.keys| && Idle(s) && p == (s.idx + j) % |s.keys|
    requires forall k :: 0 <= k < |es| ==> es[k].Sent?
    ensures After(s, TickTimes(j) + es).idx == p
  {
    AfterConcat(s, TickTimes(j), es);
    IdleTicks(s, j, p);
    PositionKept(After(s, TickTimes(j)), es);
  }

  // ----- one such run

  const RESTING := Ctl(map["a" := [], "b" := [], "c" := []], ["a", "b", "c"], 0)
  const SENDS := [Sent("b", 1), Sent("c", 2)]

  const WAITING := Ctl(map["a" := [], "b" := [1], "c" := [2]], ["a", "b", "c"], 1)

  lemma RestingSends()
    ensures After(RESTING.(idx := 1), SENDS) == WAITING
  {
    var s := RESTING.(idx := 1);
    var t := Ctl(map["a" := [], "b" := [1], "c" := []], ["a", "b", "c"], 1);
    assert [] + [1] == [1] && [] + [2] == [2];
    assert s.m["b" := [1]] == t.m && t.m["c" := [2]] == WAITING.m;
    assert Send(s, "b", 1) == t && Send(t, "c", 2) == WAITING;
    assert SENDS[1..] == [Sent("c", 2)] && SENDS[1..][1..] == [];
  }

  lemma RestingInv()
    ensures Inv(RESTING) && Idle(RESTING)
  {
  }

  lemma WaitingNext()
    ensures NextBusy(WAITING, 1, 0, 2) && Queue(WAITING, WAITING.keys[2]) == [2]
  {
  }

  /** Resting at `a`, then one idle round, then functions for `b` and `c`: the next round runs that of `c`. */
  lemma IdleRun()
    ensures Inv(RESTING) && Idle(RESTING)
    ensures Tick(After(RESTING, TickTimes(1) + SENDS)).1 == Some(Ran("c", 2))
  {
    RestingInv();
    RestingRun();
    WaitingNext();
    IdleThenServed(RESTING, 1, SENDS, 0, 2);
  }

  lemma RestingMoves()
    ensures After(RESTING, TickTimes(1)) == RESTING.(idx := 1)
  {
    RestingInv();
    IdleTicks(RESTING, 1, 1);
  }

  lemma Joined(s: Ctl, es: seq<Event>, t: Ctl, fs: seq<Event>, u: Ctl)
    requires After(s, es) == t && After(t, fs) == u
    ensures After(s, es + fs) == u
  {
    AfterConcat(s, es, fs);
  }

  lemma RestingRun()
    ensures After(RESTING, TickTimes(1) + SENDS) == WAITING
  {
    RestingMoves();
    RestingSends();
    Joined(RESTING, TickTimes(1), RESTING.(idx := 1), SENDS, WAITING);
  }
}
