/**
  The flood controller: one queue of functions for each channel and a dispatcher that runs one function at a
  time, going round the channels. `send`, `clear` and the body of the dispatcher all hold one mutex, so each
  is one atomic step here.
 */
module FloodControllers {
  import opened Text

  // A queued function is only ever called, so a number tells one from another.
  type Func = nat

  /** The queues, the channels in the order in which they were first seen, and where the dispatcher stands. */
  datatype Ctl = Ctl(m: map<string, seq<Func>>, keys: seq<string>, idx: nat)

  /** A function that the dispatcher ran, and the channel it came from. */
  datatype Ran = Ran(channel: string, func: Func)

  /** The channels are listed once each, and are exactly those that have a queue. */
  ghost predicate Inv(s: Ctl) {
    && (forall i, j :: 0 <= i < j < |s.keys| ==> s.keys[i] != s.keys[j])
    && (forall c :: c in s.keys <==> c in s.m)
  }

  function QueueIn(m: map<string, seq<Func>>, c: string): seq<Func> {
    if c in m then m[c] else []
  }

  function Queue(s: Ctl, c: string): seq<Func> {
    QueueIn(s.m, c)
  }

  // ----- the steps as functions

  function Send(s: Ctl, c: string, f: Func): Ctl {
    s.(m := s.m[c := Queue(s, c) + [f]], keys := if c in s.keys then s.keys else s.keys + [c])
  }

  function ClearAll(s: Ctl): Ctl {
    s.(m := map[], keys := [])
  }

  function IndexOf(keys: seq<string>, c: string): (i: nat)
    ensures i <= |keys|
    ensures i < |keys| ==> keys[i] == c
    ensures forall j :: 0 <= j < i ==> keys[j] != c
  {
    if keys == [] || keys[0] == c then 0 else 1 + IndexOf(keys[1..], c)
  }

  function ClearOne(s: Ctl, c: string): Ctl {
    var i := IndexOf(s.keys, c);
    if i == |s.keys| then s else s.(m := s.m - {c}, keys := RemoveAt(s.keys, i))
  }

  function RemoveAt(keys: seq<string>, i: nat): (r: seq<string>)
    requires i < |keys|
    ensures |r| == |keys| - 1
    ensures forall j :: 0 <= j < i ==> r[j] == keys[j]
    ensures forall j :: i <= j < |r| ==> r[j] == keys[j + 1]
  {
    keys[..i] + keys[i + 1..]
  }

  /** Where the dispatcher starts looking: after the previous position, or at 0 when that is out of range. */
  function Start(s: Ctl): nat {
    if s.idx + 1 >= |s.keys| then 0 else s.idx + 1
  }

  /** The first position in `[i, hi)` whose queue is not empty, or `hi`. */
  function FirstBusy(m: map<string, seq<Func>>, keys: seq<string>, i: nat, hi: nat): (r: nat)
    requires i <= hi <= |keys|
    ensures i <= r <= hi
    ensures r < hi ==> QueueIn(m, keys[r]) != []
    ensures forall j :: i <= j < r ==> QueueIn(m, keys[j]) == []
    decreases hi - i
  {
    if i == hi || QueueIn(m, keys[i]) != [] then i else FirstBusy(m, keys, i + 1, hi)
  }

  /** Running the first function of the channel at position `i`. */
  function RunAt(s: Ctl, i: nat): (Ctl, Option<Ran>)
    requires i < |s.keys| && Queue(s, s.keys[i]) != []
  {
    var c := s.keys[i];
    (s.(idx := i, m := s.m[c := Queue(s, c)[1..]]), Some(Ran(c, Queue(s, c)[0])))
  }

  /** The position that a round serves: looking from the starting position to the end, then from 0 up to it. */
  function Target(s: Ctl): (t: Option<nat>)
    ensures t.Some? ==> t.value < |s.keys| && Queue(s, s.keys[t.value]) != []
  {
    var start := Start(s);
    var i := FirstBusy(s.m, s.keys, start, |s.keys|);
    if i < |s.keys| then Some(i)
    else
      var j := FirstBusy(s.m, s.keys, 0, start);
      if j < start then Some(j) else None
  }

  /** One round of the dispatcher. */
  function Tick(s: Ctl): (Ctl, Option<Ran>) {
    match Target(s)
    case Some(i) => RunAt(s, i)
    case None => (s.(idx := Start(s)), None)
  }

  class FloodController {
    var m: map<string, seq<Func>>
    var keys: seq<string>
    var idx: nat

    ghost function Abs(): Ctl
      reads this
    {
      Ctl(m, keys, idx)
    }

    constructor ()
      ensures Abs() == Ctl(map[], [], 0) && Inv(Abs())
    {
      m, keys, idx := map[], [], 0;
    }

    /** The body of the loop in `dispatcher`. */
    method Dispatch() returns (ran: Option<Ran>)
      requires Inv(Abs())
      modifies this
      ensures (Abs(), ran) == Tick(old(Abs()))
      ensures Inv(Abs())
    {
      var found := Seek();
      if !found {
        return None;
      }
      var r := RunFront();
      ran := Some(r);
    }

    /** The search for a channel to serve: the two loops over `idx`. */
    method Seek() returns (found: bool)
      requires Inv(Abs())
      modifies `idx
      ensures found ==> Target(old(Abs())) == Some(idx)
      ensures !found ==> Target(old(Abs())) == None && idx == Start(old(Abs()))
    {
      idx := idx + 1;
      if idx >= |keys| {
        idx := 0;
      }
      var end := idx;
      SkipIdle(|keys|);
      if idx == |keys| {
        idx := 0;
        SkipIdle(end);
        return idx != end;
      }
      return true;
    }

    /** Moves on to the first channel before `hi` that has anything queued. */
    method SkipIdle(hi: nat)
      requires Inv(Abs()) && idx <= hi <= |keys|
      modifies `idx
      ensures idx == FirstBusy(m, keys, old(idx), hi)
    {
      while idx < hi
        invariant idx <= hi
        invariant FirstBusy(m, keys, idx, hi) == FirstBusy(m, keys, old(idx), hi)
      {
        if m[keys[idx]] != [] {
          return;
        }
        idx := idx + 1;
      }
    }

    /** Runs the first function of the current channel and takes it off the queue. */
    method RunFront() returns (r: Ran)
      requires Inv(Abs()) && idx < |keys| && m[keys[idx]] != []
      modifies `m
      ensures (Abs(), Some(r)) == RunAt(old(Abs()), idx)
      ensures Inv(Abs())
    {
      var c := keys[idx];
      r := Ran(c, m[c][0]);
      m := m[c := m[c][1..]];
    }

    /** `send` */
    method Enqueue(channel: string, func: Func) returns (ok: bool)
      requires Inv(Abs())
      modifies this
      ensures ok && Abs() == Send(old(Abs()), channel, func)
      ensures Inv(Abs())
    {
      m := m[channel := (if channel in m then m[channel] else []) + [func]];
      if channel !in keys {
        keys := keys + [channel];
      }
      return true;
    }

    /** `clear()` */
    method Clear()
      modifies this
      ensures Abs() == ClearAll(old(Abs())) && Inv(Abs())
    {
      m := map[];
      keys := [];
    }

    /** `clear(channel)` */
    method ClearChannel(channel: string)
      requires Inv(Abs())
      modifies this
      ensures Abs() == ClearOne(old(Abs()), channel) && Inv(Abs())
    {
      ClearOneInv(Abs(), channel);
      var found := IndexOf(keys, channel);
      if found != |keys| {
        m := m - {channel};
        keys := RemoveAt(keys, found);
      }
    }
  }

  lemma ClearOneInv(s: Ctl, c: string)
    requires Inv(s)
    ensures Inv(ClearOne(s, c))
  {
    var i := IndexOf(s.keys, c);
    if i < |s.keys| {
      RemoveAtMembers(s.keys, i);
    }
  }

  lemma RemoveAtMembers(keys: seq<string>, i: nat)
    requires i < |keys|
    requires forall j, k :: 0 <= j < k < |keys| ==> keys[j] != keys[k]
    ensures forall k :: k in RemoveAt(keys, i) <==> k in keys && k != keys[i]
  {
    forall k | k in keys && k != keys[i] ensures k in RemoveAt(keys, i) {
      var j :| 0 <= j < |keys| && keys[j] == k;
      assert RemoveAt(keys, i)[if j < i then j else j - 1] == k;
    }
  }
}
