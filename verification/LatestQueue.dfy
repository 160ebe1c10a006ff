/**
 * The "latest value" queues between cores (main.cpp, queue_push_latest and
 * queue_try_get_latest) over the Pico's bounded queue, whose add and remove are atomic. One
 * core pushes, the other drains; their steps interleave in any order. Elements are named by
 * the number of the push that brought them.
 */
module LatestQueue {
  import opened Bytes

  const CAPACITY := 8

  /** The producer: idle, or in a push of element n that found the queue full, before its
      remove or after it. */
  datatype Producer = PIdle | PRemove(n: nat) | PAdd(n: nat, took: Option<nat>)

  /** The consumer: idle, or draining. `began` counts the elements enqueued when the drain
      began, `before` the ones consumed by earlier drains. */
  datatype Consumer = CIdle | CDrain(began: nat, before: nat, msg: Option<nat>)

  datatype State = State(
    q: seq<nat>, producer: Producer, consumer: Consumer,
    next: nat, added: nat, lost: nat, consumed: seq<nat>, dropped: seq<nat>, returned: seq<nat>)

  /** Push makes the first attempt of a push, Remove and Add the rest of it; Drain begins a
      drain and Take is one removal attempt, which ends the drain on an empty queue. */
  datatype Step = Push | Remove | Add | Drain | Take

  function Init(): State {
    State([], PIdle, CIdle, 0, 0, 0, [], [], [])
  }

  function Next(s: State, step: Step): State {
    match step
    case Push =>
      if s.producer != PIdle then s
      else if |s.q| < CAPACITY then s.(q := s.q + [s.next], next := s.next + 1, added := s.added + 1)
      else s.(producer := PRemove(s.next), next := s.next + 1)
    case Remove =>
      if !s.producer.PRemove? then s
      else if s.q == [] then s.(producer := PAdd(s.producer.n, None))
      else s.(producer := PAdd(s.producer.n, Some(s.q[0])), q := s.q[1..], dropped := s.dropped + [s.q[0]])
    case Add =>
      if !s.producer.PAdd? then s
      else if |s.q| < CAPACITY then s.(q := s.q + [s.producer.n], added := s.added + 1, producer := PIdle)
      else s.(lost := s.lost + 1, producer := PIdle)
    case Drain => if s.consumer != CIdle then s else s.(consumer := CDrain(s.added, |s.consumed|, None))
    case Take =>
      if s.consumer == CIdle then s
      else if s.q == [] then
        s.(consumer := CIdle,
           returned := if s.consumer.msg.Some? then s.returned + [s.consumer.msg.value] else s.returned)
      else s.(q := s.q[1..], consumed := s.consumed + [s.q[0]], consumer := s.consumer.(msg := Some(s.q[0])))
  }

  function Run(steps: seq<Step>): State
    decreases |steps|
  {
    if steps == [] then Init() else Next(Run(steps[..|steps| - 1]), steps[|steps| - 1])
  }

  // ---------- The invariant ----------

  predicate Increasing(a: seq<nat>) {
    forall i :: 0 < i < |a| ==> Ascends(a, i)
  }

  predicate Ascends(a: seq<nat>, i: nat)
    requires 0 < i < |a|
  {
    a[i - 1] < a[i]
  }

  function Last(a: seq<nat>): nat
    requires a != []
  {
    a[|a| - 1]
  }

  lemma {:induction false} Rises(a: seq<nat>, i: nat, j: nat)
    requires Increasing(a) && i < j < |a|
    ensures a[i] < a[j]
    decreases j
  {
    assert Ascends(a, j);
    if i < j - 1 {
      Rises(a, i, j - 1);
    }
  }

  lemma LastIsGreatest(a: seq<nat>, i: nat)
    requires Increasing(a) && i < |a|
    ensures a[i] <= Last(a)
  {
    if i < |a| - 1 {
      Rises(a, i, |a| - 1);
    }
  }

  lemma IncreasingAppend(a: seq<nat>, x: nat)
    requires Increasing(a) && (a != [] ==> Last(a) < x)
    ensures Increasing(a + [x])
  {
    forall i | 0 < i < |a| + 1 ensures Ascends(a + [x], i) {
      assert i < |a| ==> Ascends(a, i);
    }
  }

  /** The queue holds consecutive elements, the newest one enqueued at the end. */
  predicate Consecutive(q: seq<nat>, added: nat) {
    |q| <= added && forall i :: 0 <= i < |q| ==> q[i] == added - |q| + i
  }

  /** Elements removed so far. */
  function Gone(s: State): nat
    requires |s.q| <= s.added
  {
    s.added - |s.q|
  }

  /** Every element removed was consumed or dropped, never both, in push order. */
  ghost predicate Accounted(s: State) {
    && Consecutive(s.q, s.added) && |s.q| <= CAPACITY
    && Increasing(s.consumed) && (s.consumed != [] ==> Last(s.consumed) < Gone(s))
    && Increasing(s.dropped) && (s.dropped != [] ==> Last(s.dropped) < Gone(s))
    && (forall i :: 0 <= i < Gone(s) ==> (i in s.consumed <==> i !in s.dropped))
  }

  /** An element of the last eight enqueued, removed since the push in flight found the queue
      full, was consumed, except the one that push itself removed. */
  ghost predicate InFlight(s: State) {
    match s.producer
    case PIdle => s.next == s.added
    case PRemove(n) =>
      && s.next == n + 1 && n == s.added >= CAPACITY && |s.q| <= CAPACITY
      && (forall i :: s.added - CAPACITY <= i < s.added - |s.q| ==> i in s.consumed)
    case PAdd(n, took) =>
      && s.next == n + 1 && n == s.added >= CAPACITY && |s.q| < CAPACITY
      && (took.Some? ==> took.value in s.dropped && took.value < s.added - |s.q|)
      && (forall i :: s.added - CAPACITY <= i < s.added - |s.q| ==> i in s.consumed || took == Some(i))
  }

  /** The newest element enqueued is queued, consumed, or was taken by the push in flight. */
  ghost predicate NewestKept(s: State) {
    s.q == [] && s.added > 0 ==> s.added - 1 in s.consumed || s.producer == PAdd(s.added, Some(s.added - 1))
  }

  ghost predicate Draining(s: State) {
    if s.consumer == CIdle then s.returned != [] ==> s.consumed != [] && Last(s.returned) <= Last(s.consumed)
    else
      var c := s.consumer;
      && c.before <= |s.consumed| && c.began <= s.added
      && (forall i :: 0 <= i < c.before ==> s.consumed[i] < c.began)
      && c.msg == (if |s.consumed| > c.before then Some(Last(s.consumed)) else None)
      && (s.returned != [] ==> 0 < c.before && Last(s.returned) <= s.consumed[c.before - 1])
  }

  ghost predicate Inv(s: State) {
    Accounted(s) && InFlight(s) && NewestKept(s) && Draining(s) && Increasing(s.returned) && s.lost == 0
  }

  lemma PushKeeps(s: State)
    requires Inv(s)
    ensures Inv(Next(s, Push))
  {
  }

  lemma AddKeeps(s: State)
    requires Inv(s)
    ensures Inv(Next(s, Add))
  {
  }

  lemma RemoveKeeps(s: State)
    requires Inv(s)
    ensures Inv(Next(s, Remove))
  {
    if s.producer.PRemove? && s.q != [] {
      IncreasingAppend(s.dropped, s.q[0]);
      if s.q[0] in s.consumed { InIsBelow(s.consumed, s.q[0]); }
    }
  }

  lemma InIsBelow(a: seq<nat>, x: nat)
    requires Increasing(a) && x in a
    ensures x <= Last(a)
  {
    var i :| 0 <= i < |a| && a[i] == x;
    LastIsGreatest(a, i);
  }

  lemma DrainKeeps(s: State)
    requires Inv(s)
    ensures Inv(Next(s, Drain))
  {
    forall i | 0 <= i < |s.consumed| ensures s.consumed[i] < s.added {
      LastIsGreatest(s.consumed, i);
    }
  }

  lemma TakeOneKeeps(s: State)
    requires Inv(s) && s.consumer.CDrain? && s.q != []
    ensures Inv(Next(s, Take))
  {
    IncreasingAppend(s.consumed, s.q[0]);
    if s.q[0] in s.dropped { InIsBelow(s.dropped, s.q[0]); }
  }

  lemma EndDrainKeeps(s: State)
    requires Inv(s) && s.consumer.CDrain? && s.q == []
    ensures Inv(Next(s, Take))
  {
    if s.consumer.msg.Some? {
      if s.returned != [] { Rises(s.consumed, s.consumer.before - 1, |s.consumed| - 1); }
      IncreasingAppend(s.returned, s.consumer.msg.value);
    }
  }

  lemma {:induction false} RunInv(steps: seq<Step>)
    ensures Inv(Run(steps))
    decreases |steps|
  {
    if steps != [] {
      var s := Run(steps[..|steps| - 1]);
      RunInv(steps[..|steps| - 1]);
      match steps[|steps| - 1]
      case Push => PushKeeps(s);
      case Remove => RemoveKeeps(s);
      case Add => AddKeeps(s);
      case Drain => DrainKeeps(s);
      case Take => if s.consumer.CDrain? { if s.q != [] { TakeOneKeeps(s); } else { EndDrainKeeps(s); } }
    }
  }

  // ---------- What every interleaving guarantees ----------

  /** A completed push has enqueued its element: the second attempt never fails. */
  lemma EveryPushEnqueues(steps: seq<Step>)
    ensures var s := Run(steps); s.lost == 0 && (s.producer == PIdle ==> s.added == s.next)
  {
    RunInv(steps);
  }

  /** Only the oldest element is ever dropped, and only by a push of a newer one. */
  lemma OnlyOlderDropped(steps: seq<Step>, i: nat)
    requires var s := Run(steps); s.producer.PRemove? && s.q != [] && i < |s.q|
    ensures var s := Run(steps); Next(s, Remove).dropped == s.dropped + [s.q[0]] && s.q[0] <= s.q[i] < s.producer.n
  {
    RunInv(steps);
  }

  /** Drains return elements in push order, never one twice. */
  lemma ReturnsIncrease(steps: seq<Step>, i: nat, j: nat)
    requires i < j < |Run(steps).returned|
    ensures Run(steps).returned[i] < Run(steps).returned[j]
  {
    RunInv(steps);
    Rises(Run(steps).returned, i, j);
  }

  /** Every element enqueued is queued, or was consumed, or was dropped, and only one of them. */
  lemma EachElementOnce(steps: seq<Step>, i: nat)
    requires i < Run(steps).added
    ensures var s := Run(steps);
      && (i in s.q || i in s.consumed || i in s.dropped)
      && !(i in s.q && i in s.consumed) && !(i in s.q && i in s.dropped) && !(i in s.consumed && i in s.dropped)
  {
    RunInv(steps);
    var s := Run(steps);
    if i >= Gone(s) {
      assert s.q[i - Gone(s)] == i;
      if i in s.consumed { InIsBelow(s.consumed, i); }
      if i in s.dropped { InIsBelow(s.dropped, i); }
    }
  }

  // ---------- Freshness ----------

  /** The drain that is ending returns the newest element enqueued before it began, or a newer
      one, or else that element had been consumed already. */
  ghost predicate Fresh(s: State)
    requires s.consumer.CDrain? && s.consumer.before <= |s.consumed|
  {
    var c := s.consumer;
    c.began == 0 || (c.msg.Some? && c.msg.value >= c.began - 1) || c.began - 1 in s.consumed[..c.before]
  }

  /** The very next push is between its remove and its second add, having removed the newest
      element enqueued before the drain began. */
  predicate NewestTaken(s: State)
    requires s.consumer.CDrain?
  {
    s.consumer.began > 0 && s.producer == PAdd(s.consumer.began, Some(s.consumer.began - 1))
  }

  /** A drain is fresh exactly when it does not end while the very next push is between its
      remove and its second add, having removed that newest element. */
  lemma FreshIff(steps: seq<Step>)
    requires var s := Run(steps); s.consumer.CDrain? && s.q == []
    ensures var s := Run(steps);
      s.consumer.before <= |s.consumed| && (Fresh(s) <==> !NewestTaken(s))
  {
    RunInv(steps);
    var s := Run(steps);
    if s.consumer.began > 0 {
      if NewestTaken(s) {
        NotConsumed(s, s.consumer.began - 1);
      } else {
        EndsFresh(s);
      }
    }
  }

  /** The queue is empty, so the newest element has been consumed, or the one before it has
      and only the push in flight took the newest. */
  lemma EndsFresh(s: State)
    requires Inv(s) && s.consumer.CDrain? && s.q == [] && s.consumer.began > 0
    requires !NewestTaken(s)
    ensures Fresh(s)
  {
    if s.added - 1 in s.consumed {
      ReachedBy(s, s.added - 1);
    } else {
      assert s.producer == PAdd(s.added, Some(s.added - 1));
      assert s.added - 2 in s.consumed;
      ReachedBy(s, s.added - 2);
    }
  }

  /** A dropped element that is the newest: nothing the drain holds is as new. */
  lemma NotConsumed(s: State, x: nat)
    requires Inv(s) && s.consumer.CDrain? && x in s.dropped && x + 1 == s.added && s.q == []
    ensures x !in s.consumed && (s.consumer.msg.Some? ==> s.consumer.msg.value < x)
  {
    InIsBelow(s.dropped, x);
    if s.consumer.msg.Some? {
      assert Last(s.consumed) in s.consumed;
    }
  }

  /** An element at least as new as the drain's target and consumed makes the drain fresh. */
  lemma ReachedBy(s: State, x: nat)
    requires Inv(s) && s.consumer.CDrain? && s.consumer.began > 0 && x in s.consumed && x >= s.consumer.began - 1
    ensures Fresh(s)
  {
    var i :| 0 <= i < |s.consumed| && s.consumed[i] == x;
    if i >= s.consumer.before {
      LastIsGreatest(s.consumed, i);
    } else {
      assert s.consumed[..s.consumer.before][i] == x;
    }
  }

  ghost predicate StaleEnd(steps: seq<Step>) {
    var s := Run(steps);
    s.consumer.CDrain? && s.consumer.before <= |s.consumed| && s.q == [] && !Fresh(s)
  }

  lemma RunMore(steps: seq<Step>, step: Step)
    ensures Run(steps + [step]) == Next(Run(steps), step)
  {
    assert (steps + [step])[..|steps|] == steps;
  }

  /** A drain that begins now can end stale: the queue is full, or a push in flight has yet to
      remove one of the elements queued, or it has removed the newest. */
  predicate MayGoStale(s: State) {
    match s.producer
    case PIdle => |s.q| == CAPACITY
    case PRemove(_) => s.q != []
    case PAdd(_, took) => took.Some? && took.value + 1 == s.added
  }

  /** No drain but the one that began with b elements enqueued, and it cannot end stale. */
  predicate SafeSince(s: State, b: nat) {
    (s.consumer.CDrain? ==> s.consumer.began == b) && b <= s.added && (s.added == b ==> !MayGoStale(s))
  }

  lemma SafeKeeps(s: State, step: Step, b: nat)
    requires Inv(s) && SafeSince(s, b) && step != Drain
    ensures SafeSince(Next(s, step), b)
  {
  }

  lemma {:induction false} SafeRun(steps: seq<Step>, more: seq<Step>, b: nat)
    requires SafeSince(Run(steps), b) && Drain !in more
    ensures SafeSince(Run(steps + more), b)
    decreases |more|
  {
    if more == [] {
      assert steps + more == steps;
    } else {
      var n := |more| - 1;
      SafeRun(steps, more[..n], b);
      RunInv(steps + more[..n]);
      assert steps + more == (steps + more[..n]) + [more[n]];
      RunMore(steps + more[..n], more[n]);
      SafeKeeps(Run(steps + more[..n]), more[n], b);
    }
  }

  lemma RunLonger(steps: seq<Step>, more: seq<Step>, step: Step)
    ensures Run(steps + (more + [step])) == Next(Run(steps + more), step)
  {
    assert steps + (more + [step]) == (steps + more) + [step];
    RunMore(steps + more, step);
  }

  /** Nothing was enqueued since the drain began, and a push in flight has yet to remove. */
  predicate Doomed(s: State) {
    s.consumer.CDrain? && s.consumer.began == s.added && s.producer.PRemove? && s.q != []
  }

  lemma DoomedTake(s: State)
    requires Inv(s) && Doomed(s) && |s.q| > 1
    ensures Inv(Next(s, Take)) && Doomed(Next(s, Take)) && |Next(s, Take).q| == |s.q| - 1
  {
    TakeOneKeeps(s);
  }

  lemma DoomedRemove(s: State)
    requires Inv(s) && Doomed(s) && |s.q| == 1
    ensures Next(s, Remove).q == [] && NewestTaken(Next(s, Remove))
  {
  }

  /** A push in flight, before its remove, can still take the newest element of a drain that
      has begun: the drain takes the others first. */
  lemma {:induction false} TakeMost(steps: seq<Step>, more: seq<Step>, left: nat) returns (longer: seq<Step>)
    requires Doomed(Run(steps + more)) && |Run(steps + more).q| == left && Drain !in more
    ensures Drain !in longer && StaleEnd(steps + longer)
    decreases left
  {
    RunInv(steps + more);
    if left > 1 {
      RunLonger(steps, more, Take);
      DoomedTake(Run(steps + more));
      longer := TakeMost(steps, more + [Take], left - 1);
    } else {
      RunLonger(steps, more, Remove);
      DoomedRemove(Run(steps + more));
      longer := more + [Remove];
      FreshIff(steps + longer);
    }
  }

  lemma GoesStale(steps: seq<Step>) returns (more: seq<Step>)
    requires Run(steps).consumer == CIdle && MayGoStale(Run(steps))
    ensures Drain !in more && StaleEnd(steps + [Drain] + more)
  {
    var s, begun := Run(steps), steps + [Drain];
    RunInv(steps);
    RunMore(steps, Drain);
    assert begun + [] == begun && [] + [Push] == [Push];
    if s.producer.PIdle? {
      RunLonger(begun, [], Push);
      more := TakeMost(begun, [Push], CAPACITY);
    } else if s.producer.PRemove? {
      more := TakeMost(begun, [], |s.q|);
    } else {
      RunInv(begun);
      FreshIff(begun);
      more := [];
    }
  }

  /** A drain can end stale exactly when it begins in one of those three situations. */
  lemma MayGoStaleIff(steps: seq<Step>)
    requires Run(steps).consumer == CIdle
    ensures (exists more :: Drain !in more && StaleEnd(steps + [Drain] + more)) <==> MayGoStale(Run(steps))
  {
    if MayGoStale(Run(steps)) {
      var more := GoesStale(steps);
    } else {
      forall more | Drain !in more
        ensures !StaleEnd(steps + [Drain] + more)
      {
        NeverStale(steps, more);
      }
    }
  }

  /** So a drain that begins with fewer than eight elements queued and no push in flight ends
      fresh, whatever the producer does meanwhile. */
  lemma NeverStale(steps: seq<Step>, more: seq<Step>)
    requires Run(steps).consumer == CIdle && !MayGoStale(Run(steps)) && Drain !in more
    ensures !StaleEnd(steps + [Drain] + more)
  {
    var begun := steps + [Drain];
    RunMore(steps, Drain);
    SafeRun(begun, more, Run(steps).added);
    RunInv(begun + more);
    var s := Run(begun + more);
    if s.consumer.CDrain? && s.q == [] {
      FreshIff(begun + more);
    }
  }

  /** Eight pushes and then a drain is enough. */
  lemma StaleDrain()
    ensures exists steps :: StaleEnd(steps)
  {
    var steps: seq<Step> := [];
    for k := 0 to CAPACITY
      invariant var s := Run(steps); s.consumer == CIdle && s.producer == PIdle && |s.q| == k
    {
      RunMore(steps, Push);
      steps := steps + [Push];
    }
    MayGoStaleIff(steps);
  }

  /** `s` after the first i steps of a drain that nothing interrupts. */
  function Midway(s: State, i: nat): State
    requires i <= |s.q|
  {
    s.(q := s.q[i..], consumed := s.consumed + s.q[..i],
       consumer := CDrain(s.added, |s.consumed|, if i == 0 then None else Some(s.q[i - 1])))
  }

  lemma MidwayStep(s: State, i: nat, next: nat)
    requires i < |s.q| && next == i + 1
    ensures Next(Midway(s, i), Take) == Midway(s, next)
  {
    var left := s.q[i..];
    assert left[0] == s.q[i] && left[1..] == s.q[next..];
    assert (s.consumed + s.q[..i]) + [s.q[i]] == s.consumed + s.q[..next];
  }

  /** Step by step, an uninterrupted drain takes the whole queue. */
  lemma {:induction false} MidwayAt(s: State, i: nat)
    requires Inv(s) && s.consumer == CIdle && i <= |s.q|
    ensures Inv(Midway(s, i))
    ensures i == 0 ==> Midway(s, i) == Next(s, Drain)
  {
    if i == 0 {
      DrainKeeps(s);
      MidwayStart(s);
    } else {
      MidwayAt(s, i - 1);
      MidwayKeeps(s, i - 1, i);
    }
  }

  lemma MidwayStart(s: State)
    requires s.consumer == CIdle
    ensures Midway(s, 0) == Next(s, Drain)
  {
    assert s.q[0..] == s.q && s.consumed + s.q[..0] == s.consumed;
  }

  lemma MidwayKeeps(s: State, i: nat, next: nat)
    requires i < |s.q| && next == i + 1 && Inv(Midway(s, i))
    ensures Inv(Midway(s, next))
  {
    var m := Midway(s, i);
    MidwayStep(s, i, next);
    TakeOneKeeps(m);
  }

  /** `s` after a drain that nothing interrupts. */
  function Drained(s: State): State {
    s.(q := [], consumed := s.consumed + s.q, returned := if s.q == [] then s.returned else s.returned + [Last(s.q)])
  }

  lemma DrainWhole(s: State)
    requires Inv(s) && s.consumer == CIdle
    ensures Inv(Drained(s)) && Drained(s) == Next(Midway(s, |s.q|), Take)
  {
    MidwayAt(s, |s.q|);
    EndDrainKeeps(Midway(s, |s.q|));
    assert s.q[..|s.q|] == s.q;
  }

  // ---------- The code ----------

  /** A push or a drain that nothing interrupts; `s` names the state it starts from. */
  class Queue {
    var q: seq<nat>

    constructor ()
      ensures Holds(Init())
    {
      q := [];
    }

    ghost predicate Holds(s: State)
      reads this
    {
      Inv(s) && q == s.q
    }

    method TryAdd(e: nat) returns (ok: bool)
      modifies this
      ensures ok == (|old(q)| < CAPACITY) && q == if ok then old(q) + [e] else old(q)
    {
      ok := |q| < CAPACITY;
      if ok {
        q := q + [e];
      }
    }

    method TryRemove() returns (e: Option<nat>)
      modifies this
      ensures old(q) == [] ==> e == None && q == []
      ensures old(q) != [] ==> e == Some(old(q)[0]) && q == old(q)[1..]
    {
      if q == [] {
        return None;
      }
      e := Some(q[0]);
      q := q[1..];
    }

    /** Uninterrupted, a push keeps the newest eight elements. */
    method PushLatest(e: nat, ghost s: State) returns (ghost s': State)
      requires Holds(s) && s.producer == PIdle && e == s.next
      modifies this
      ensures Holds(s') && s'.producer == PIdle && s'.consumer == s.consumer && s'.consumed == s.consumed
      ensures s' == if |old(q)| < CAPACITY then Next(s, Push) else Next(Next(Next(s, Push), Remove), Add)
      ensures q == (if |old(q)| < CAPACITY then old(q) else old(q)[1..]) + [e]
    {
      PushKeeps(s);
      s' := Next(s, Push);
      var ok := TryAdd(e);
      if !ok {
        RemoveKeeps(s');
        s' := Next(s', Remove);
        var scratch := TryRemove();
        AddKeeps(s');
        s' := Next(s', Add);
        ok := TryAdd(e);
      }
    }

    /** Uninterrupted, a drain empties the queue and returns its newest element, if any. */
    method TryGetLatest(ghost s: State) returns (msg: Option<nat>)
      requires Holds(s) && s.consumer == CIdle
      modifies this
      ensures Holds(Drained(s)) && q == []
      ensures msg == if old(q) == [] then None else Some(Last(old(q)))
    {
      DrainWhole(s);
      msg := None;
      ghost var i := 0;
      while true
        invariant i <= |s.q| && q == s.q[i..]
        invariant msg == if i == 0 then None else Some(s.q[i - 1])
        decreases |s.q| - i
      {
        var e := TryRemove();
        if e.None? {
          break;
        }
        msg := e;
        i := i + 1;
      }
    }
  }
}
