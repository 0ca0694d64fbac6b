/**
  The flood controller over whole runs: nothing is lost or reordered, the dispatcher never idles while work
  is waiting, and every channel is served in turn.
 */
module FloodRuns {
  import opened Text
  import opened FloodControllers

  datatype Event = Sent(c: string, f: Func) | Ticked | ClearedAll | Cleared(c: string)

  const INITIAL := Ctl(map[], [], 0)

  function Step(s: Ctl, e: Event): (Ctl, Option<Ran>) {
    match e
    case Sent(c, f) => (Send(s, c, f), None)
    case Ticked => Tick(s)
    case ClearedAll => (ClearAll(s), None)
    case Cleared(c) => (ClearOne(s, c), None)
  }

  function After(s: Ctl, es: seq<Event>): Ctl
    decreases es
  {
    if es == [] then s else After(Step(s, es[0]).0, es[1..])
  }

  lemma StepInv(s: Ctl, e: Event)
    requires Inv(s)
    ensures Inv(Step(s, e).0)
  {
    if e.Cleared? {
      ClearOneInv(s, e.c);
    }
  }

  /** In every run the channels are listed once each and are exactly those that have a queue. */
  lemma {:induction false} RunInv(s: Ctl, es: seq<Event>)
    requires Inv(s)
    ensures Inv(After(s, es))
    decreases es
  {
    if es == [] {
    } else {
      StepInv(s, es[0]);
      RunInv(Step(s, es[0]).0, es[1..]);
    }
  }

  // ----- conservation and order

  /** What has been sent to `c` since it was last cleared, one event later. */
  function SentStep(c: string, before: seq<Func>, e: Event): seq<Func> {
    match e
    case Sent(d, f) => if d == c then before + [f] else before
    case Ticked => before
    case ClearedAll => []
    case Cleared(d) => if d == c then [] else before
  }

  function SentTo(c: string, before: seq<Func>, es: seq<Event>): seq<Func>
    decreases es
  {
    if es == [] then before else SentTo(c, SentStep(c, before, es[0]), es[1..])
  }

  function RanOn(c: string, ran: Option<Ran>): seq<Func> {
    if ran.Some? && ran.value.channel == c then [ran.value.func] else []
  }

  /** What has been run for `c` since it was last cleared, one event later. */
  function RanStep(s: Ctl, c: string, before: seq<Func>, e: Event): seq<Func> {
    match e
    case Sent(_, _) => before
    case Ticked => before + RanOn(c, Tick(s).1)
    case ClearedAll => []
    case Cleared(d) => if d == c then [] else before
  }

  function RanFor(s: Ctl, c: string, before: seq<Func>, es: seq<Event>): seq<Func>
    decreases es
  {
    if es == [] then before else RanFor(Step(s, es[0]).0, c, RanStep(s, c, before, es[0]), es[1..])
  }

  lemma TickQueue(s: Ctl, c: string)
    ensures RanOn(c, Tick(s).1) + Queue(Tick(s).0, c) == Queue(s, c)
  {
  }

  lemma ClearOneQueue(s: Ctl, c: string, d: string)
    requires Inv(s)
    ensures Queue(ClearOne(s, c), d) == if c == d then [] else Queue(s, d)
  {
    var i := IndexOf(s.keys, c);
    if i == |s.keys| {
      assert c !in s.keys;
    }
  }

  lemma StepConserves(s: Ctl, c: string, ran: seq<Func>, sent: seq<Func>, e: Event)
    requires Inv(s) && ran + Queue(s, c) == sent
    ensures RanStep(s, c, ran, e) + Queue(Step(s, e).0, c) == SentStep(c, sent, e)
  {
    match e
    case Sent(d, f) =>
      SendQueue(s, d, f, c);
      Assoc(ran, Queue(s, c), [f]);
    case Ticked =>
      TickQueue(s, c);
      Assoc(ran, RanOn(c, Tick(s).1), Queue(Tick(s).0, c));
    case ClearedAll =>
    case Cleared(d) =>
      ClearOneQueue(s, d, c);
  }

  lemma SendQueue(s: Ctl, c: string, f: Func, d: string)
    ensures Queue(Send(s, c, f), d) == if c == d then Queue(s, d) + [f] else Queue(s, d)
  {
  }

  /**
    In every run, for each channel, the functions run since it was last cleared followed by those still
    queued are exactly those sent since, in order.
   */
  lemma {:induction false} Conservation(s: Ctl, c: string, ran: seq<Func>, sent: seq<Func>, es: seq<Event>)
    requires Inv(s) && ran + Queue(s, c) == sent
    ensures RanFor(s, c, ran, es) + Queue(After(s, es), c) == SentTo(c, sent, es)
    decreases es
  {
    if es == [] {
    } else {
      StepInv(s, es[0]);
      StepConserves(s, c, ran, sent, es[0]);
      Conservation(Step(s, es[0]).0, c, RanStep(s, c, ran, es[0]), SentStep(c, sent, es[0]), es[1..]);
    }
  }

  /** From a new controller on: the channels stay well formed and nothing sent is lost, doubled or reordered. */
  lemma FromStart(c: string, es: seq<Event>)
    ensures Inv(After(INITIAL, es))
    ensures RanFor(INITIAL, c, [], es) + Queue(After(INITIAL, es), c) == SentTo(c, [], es)
  {
    RunInv(INITIAL, es);
    Conservation(INITIAL, c, [], [], es);
  }

  // ----- work conservation

  /** How many steps forward, going round, the position `p` is from `start`. */
  function Dist(n: nat, start: nat, p: nat): nat
    requires start <= n
  {
    if p >= start then p - start else n - start + p
  }

  /** Everything that a tick does. */
  lemma TickCases(s: Ctl)
    requires Inv(s)
    ensures var (t, ran) := Tick(s);
            && t.keys == s.keys && (s.keys != [] ==> t.idx < |s.keys|)
            && (ran == None ==> t.m == s.m && forall i :: 0 <= i < |s.keys| ==> Queue(s, s.keys[i]) == [])
            && (ran.Some? ==>
                  && Queue(s, s.keys[t.idx]) != []
                  && ran == Some(Ran(s.keys[t.idx], Queue(s, s.keys[t.idx])[0]))
                  && t.m == s.m[s.keys[t.idx] := Queue(s, s.keys[t.idx])[1..]]
                  && forall i :: 0 <= i < |s.keys| && Dist(|s.keys|, Start(s), i) < Dist(|s.keys|, Start(s), t.idx) ==>
                       Queue(s, s.keys[i]) == [])
  {
  }

  function Distance(s: Ctl, p: nat): nat {
    Dist(|s.keys|, Start(s), p)
  }

  /** The position `d` steps after the starting one, going round. */
  function Onward(s: Ctl, d: nat): (p: nat)
    requires d < |s.keys|
    ensures p < |s.keys|
  {
    if Start(s) + d < |s.keys| then Start(s) + d else Start(s) + d - |s.keys|
  }

  lemma OnwardDistance(s: Ctl, d: nat)
    requires d < |s.keys|
    ensures Distance(s, Onward(s, d)) == d
    ensures Distance(s, d) < |s.keys| && Onward(s, Distance(s, d)) == d
  {
  }

  /**
    A tick runs exactly one function when any queue has one and none otherwise: the first function of the
    first busy channel after the previous position, going round. All positions stay in range, even after a
    clear has left fewer channels than the previous position.
   */
  lemma WorkConservation(s: Ctl)
    requires Inv(s)
    ensures Tick(s).1.Some? <==> exists c :: Queue(s, c) != []
    ensures Tick(s).1.Some? ==>
              var i := Tick(s).0.idx;
              && i < |s.keys| && Tick(s).1 == Some(Ran(s.keys[i], Queue(s, s.keys[i])[0]))
              && Distance(s, i) < |s.keys| && Onward(s, Distance(s, i)) == i
              && forall d :: 0 <= d < Distance(s, i) ==> Queue(s, s.keys[Onward(s, d)]) == []
  {
    TickCases(s);
    if c :| Queue(s, c) != [] {
      assert c in s.keys;
      var i :| 0 <= i < |s.keys| && s.keys[i] == c;
      assert Queue(s, s.keys[i]) != [];
    }
    if Tick(s).1.Some? {
      var i := Tick(s).0.idx;
      OnwardDistance(s, i);
      assert Queue(s, s.keys[i]) != [];
      forall d | 0 <= d < Distance(s, i) ensures Queue(s, s.keys[Onward(s, d)]) == [] {
        OnwardDistance(s, d);
      }
    }
  }

  // ----- order of service

  /** How often the dispatcher serves `c`. */
  function Served(s: Ctl, c: string, es: seq<Event>): nat
    decreases es
  {
    if es == [] then 0
    else |RanOn(c, Step(s, es[0]).1)| + Served(Step(s, es[0]).0, c, es[1..])
  }

  /** Nothing clears `c`: neither everything at once nor that channel. */
  predicate Spares(c: string, es: seq<Event>) {
    forall i :: 0 <= i < |es| ==> !es[i].ClearedAll? && es[i] != Cleared(c)
  }

  lemma SparesTail(c: string, es: seq<Event>)
    requires Spares(c, es) && es != []
    ensures Spares(c, es[1..]) && !es[0].ClearedAll? && es[0] != Cleared(c)
  {
    assert forall i :: 0 <= i < |es[1..]| ==> es[1..][i] == es[i + 1];
  }

  /** What has been run for a channel starts with what was queued first. */
  lemma ServedInOrder(s: Ctl, c: string, k: nat, es: seq<Event>)
    requires Inv(s) && Spares(c, es) && k <= |Queue(s, c)| && Served(s, c, es) >= k
    ensures Queue(s, c)[..k] <= RanFor(s, c, [], es)
  {
    RanForServed(s, c, [], es);
    assert [] + Queue(s, c) == Queue(s, c);
    Conservation(s, c, [], Queue(s, c), es);
    SentToGrows(c, Queue(s, c), es);
    var ran, sent := RanFor(s, c, [], es), SentTo(c, Queue(s, c), es);
    assert sent[..k] == Queue(s, c)[..k];
    assert sent[..k] == ran[..k];
  }

  lemma {:induction false} RanForServed(s: Ctl, c: string, before: seq<Func>, es: seq<Event>)
    requires Spares(c, es)
    ensures |RanFor(s, c, before, es)| == |before| + Served(s, c, es)
    decreases es
  {
    if es == [] {
    } else {
      SparesTail(c, es);
      RanForServed(Step(s, es[0]).0, c, RanStep(s, c, before, es[0]), es[1..]);
    }
  }

  lemma {:induction false} SentToGrows(c: string, before: seq<Func>, es: seq<Event>)
    requires Spares(c, es)
    ensures before <= SentTo(c, before, es)
    decreases es
  {
    if es == [] {
    } else {
      SparesTail(c, es);
      SentToGrows(c, SentStep(c, before, es[0]), es[1..]);
    }
  }

  // ----- bounded waiting

  predicate NoClears(es: seq<Event>) {
    forall i :: 0 <= i < |es| ==> es[i].Sent? || es[i].Ticked?
  }

  lemma NoClearsTail(es: seq<Event>)
    requires NoClears(es) && es != []
    ensures NoClears(es[1..]) && (es[0].Sent? || es[0].Ticked?)
  {
    assert forall i :: 0 <= i < |es[1..]| ==> es[1..][i] == es[i + 1];
  }

  function Ticks(es: seq<Event>): nat {
    if es == [] then 0 else (if es[0].Ticked? then 1 else 0) + Ticks(es[1..])
  }

  /** While a channel waits, each tick brings the dispatcher at least one position closer to it. */
  lemma TickApproaches(s: Ctl, p: nat)
    requires Inv(s) && p < |s.keys| && Queue(s, s.keys[p]) != []
    ensures Tick(s).1.Some?
    ensures Tick(s).1.value.channel != s.keys[p] ==>
              && Queue(Tick(s).0, s.keys[p]) == Queue(s, s.keys[p])
              && Distance(Tick(s).0, p) < Distance(s, p)
    ensures Tick(s).1.value.channel == s.keys[p] ==>
              Queue(Tick(s).0, s.keys[p]) == Queue(s, s.keys[p])[1..]
  {
    TickCases(s);
  }

  /** Sending moves a channel away by no more than the number of channels it adds. */
  lemma SendApproaches(s: Ctl, p: nat, c: string, f: Func)
    requires Inv(s) && p < |s.keys|
    ensures var t := Send(s, c, f);
            && t.keys[p] == s.keys[p]
            && |s.keys| <= |t.keys|
            && Distance(t, p) + |s.keys| <= Distance(s, p) + |t.keys|
            && |Queue(t, s.keys[p])| >= |Queue(s, s.keys[p])|
  {
  }

  lemma {:induction false} KeysGrow(s: Ctl, es: seq<Event>)
    requires NoClears(es)
    ensures s.keys <= After(s, es).keys
    decreases es
  {
    if es == [] {
    } else {
      NoClearsTail(es);
      KeysGrow(Step(s, es[0]).0, es[1..]);
    }
  }

  /**
    The bound behind the waiting times: as long as a channel with `k` functions queued has been served less
    than `k` times, the ticks so far are bounded by its distance, one round for each function but the last,
    and the channels first seen meanwhile. `n` is the number of channels known at the end.
   */
  lemma {:induction false} TicksBound(s: Ctl, p: nat, k: nat, es: seq<Event>, n: nat)
    requires Inv(s) && NoClears(es) && p < |s.keys| && 1 <= k <= |Queue(s, s.keys[p])|
    requires n == |After(s, es).keys|
    ensures |s.keys| <= n
    ensures Served(s, s.keys[p], es) < k ==> Ticks(es) <= Budget(s, p, k, n)
    decreases es
  {
    KeysGrow(s, es);
    if es == [] {
    } else {
      var t := Step(s, es[0]).0;
      StepInv(s, es[0]);
      NoClearsTail(es);
      if es[0].Sent? {
        SendApproaches(s, p, es[0].c, es[0].f);
        TicksBound(t, p, k, es[1..], n);
      } else {
        TickCases(s);
        TickApproaches(s, p);
        if Tick(s).1.value.channel != s.keys[p] {
          TicksBound(t, p, k, es[1..], n);
        } else if k > 1 {
          TicksBound(t, p, k - 1, es[1..], n);
          NextRound(s, t, p, k, n);
        }
      }
    }
  }

  /** One round for each function but the last, the distance, and the channels still to come. */
  function Budget(s: Ctl, p: nat, k: nat, n: nat): nat
    requires k > 0 && |s.keys| <= n
  {
    (k - 1) * n + Distance(s, p) + (n - |s.keys|)
  }

  /** Being served uses up no more than one round of the budget. */
  lemma NextRound(s: Ctl, t: Ctl, p: nat, k: nat, n: nat)
    requires k > 1 && |t.keys| == |s.keys| <= n && p < |s.keys|
    ensures Budget(t, p, k - 1, n) + 1 <= Budget(s, p, k, n)
  {
    OneRoundMore(k, n);
  }

  lemma OneRoundMore(k: nat, n: nat)
    requires k > 0
    ensures k * n == (k - 1) * n + n
    ensures k > 1 ==> (k - 1) * n == (k - 2) * n + n
  {
  }

  /**
    Bounded waiting: in a run without clears, the k-th function queued on a channel is run within k rounds
    of as many ticks as there are channels at the end.
   */
  lemma KthServed(s: Ctl, c: string, k: nat, es: seq<Event>)
    requires Inv(s) && NoClears(es) && k <= |Queue(s, c)|
    requires Ticks(es) >= k * |After(s, es).keys|
    ensures Served(s, c, es) >= k
    ensures Queue(s, c)[..k] <= RanFor(s, c, [], es)
  {
    if k > 0 {
      assert c in s.keys;
      var p :| 0 <= p < |s.keys| && s.keys[p] == c;
      TicksBound(s, p, k, es, |After(s, es).keys|);
      OneRoundMore(k, |After(s, es).keys|);
    }
    ServedInOrder(s, c, k, es);
  }

  // ----- nobody is served twice before a waiting channel

  lemma StaysBehind(s: Ctl, p: nat, q: nat, e: Event)
    requires Inv(s) && p < |s.keys| && q < |s.keys| && Queue(s, s.keys[p]) != []
    requires Distance(s, p) < Distance(s, q)
    requires e.Sent? || (e.Ticked? && Tick(s).1.Some? && Tick(s).1.value.channel != s.keys[p])
    ensures var t := Step(s, e).0;
            s.keys <= t.keys && Distance(t, p) < Distance(t, q) && Queue(t, s.keys[p]) != []
    ensures e.Ticked? ==> Tick(s).1.value.channel != s.keys[q]
  {
    if e.Ticked? {
      TickCases(s);
    } else {
      SendKeepsOrder(s, p, q, e.c, e.f);
    }
  }

  lemma SendKeepsOrder(s: Ctl, p: nat, q: nat, c: string, f: Func)
    requires p < |s.keys| && q < |s.keys| && Distance(s, p) < Distance(s, q)
    ensures var t := Send(s, c, f);
            s.keys <= t.keys && Distance(t, p) < Distance(t, q) && |Queue(t, s.keys[p])| >= |Queue(s, s.keys[p])|
  {
  }

  /** A channel behind a waiting one is not served before it. */
  lemma {:induction false} BehindWaits(s: Ctl, p: nat, q: nat, es: seq<Event>)
    requires Inv(s) && NoClears(es) && p < |s.keys| && q < |s.keys|
    requires Queue(s, s.keys[p]) != [] && Served(s, s.keys[p], es) == 0
    requires Distance(s, p) < Distance(s, q)
    ensures Served(s, s.keys[q], es) == 0
    decreases es
  {
    if es == [] {
    } else {
      StepInv(s, es[0]);
      NoClearsTail(es);
      if es[0].Ticked? {
        TickApproaches(s, p);
      }
      StaysBehind(s, p, q, es[0]);
      BehindWaits(Step(s, es[0]).0, p, q, es[1..]);
    }
  }

  /** In a run without clears, no other channel is served twice before a waiting channel is served. */
  lemma {:induction false} NoneServedTwice(s: Ctl, p: nat, c: string, es: seq<Event>)
    requires Inv(s) && NoClears(es) && p < |s.keys| && c != s.keys[p]
    requires Queue(s, s.keys[p]) != [] && Served(s, s.keys[p], es) == 0
    ensures Served(s, c, es) <= 1
    decreases es
  {
    if es == [] {
    } else {
      var t := Step(s, es[0]).0;
      StepInv(s, es[0]);
      NoClearsTail(es);
      if es[0].Ticked? {
        TickCases(s);
        TickApproaches(s, p);
        if Tick(s).1.value.channel == c {
          BehindWaits(t, p, t.idx, es[1..]);
        } else {
          NoneServedTwice(t, p, c, es[1..]);
        }
      } else {
        NoneServedTwice(t, p, c, es[1..]);
      }
    }
  }
}
