/** The scheduler of kernel/src/userspace/scheduler.c: eight intrusive doubly linked
    queues, their counters and the selection by virtual run time.

    Processes are named by numbers.  The runqueue lock, timers and context switches
    are left out; time spent is a parameter.  `queues` is the ghost view of the lists. */
module Scheduler {
  import opened Prelude

  const LEVELS: nat := 8
  const RT_MAX: nat := 2
  const NORMAL_MIN: nat := 3
  const IDLE_MAX: nat := 7

  datatype ProcState = Used | Runnable | Running | Sleeping | Exited

  /** sched_entity_t and the state of its process. */
  datatype Entity = Entity(
    state: ProcState,
    vruntime: nat, sumExec: nat, sleepTime: nat,
    staticPrio: nat, dynPrio: nat, nice: int,
    rt: bool, interactive: bool, cpuBound: bool,
    next: Option<nat>, prev: Option<nat>, bucket: nat, queued: bool)

  type Table = map<nat, Entity>

  /** sched_entity_weight */
  function Weight(prio: nat): (w: nat)
    ensures w >= 15000
  {
    if prio == 0 then 88761 else if prio == 1 then 71755 else if prio == 2 then 56483 else if prio == 3 then 46273
    else if prio == 4 then 36291 else if prio == 5 then 29154 else if prio == 6 then 23254 else 15000
  }

  /** A better priority weighs more: each of the levels above the last by a fifth to three
      tenths, the last by more than half. */
  lemma WeightOrder(a: nat, b: nat)
    requires a < b < LEVELS
    ensures Weight(a) > Weight(b) && Weight(NORMAL_MIN) == 46273
    ensures b == a + 1 && b < IDLE_MAX ==> 12 * Weight(b) < 10 * Weight(a) < 13 * Weight(b)
    ensures b == a + 1 && b == IDLE_MAX ==> 15 * Weight(b) < 10 * Weight(a) < 16 * Weight(b)
  {}

  lemma OneWeight(a: nat, b: nat)
    requires a < LEVELS && b < LEVELS
    ensures Weight(a) == Weight(b) <==> a == b
  {
    if a < b { WeightOrder(a, b); }
    if b < a { WeightOrder(b, a); }
  }

  /** Integer division of C, which truncates toward zero. */
  function CDiv(a: int, b: nat): (q: int)
    requires b > 0
  {
    if a >= 0 then a / b else -((-a) / b)
  }

  /** sched_check_interactive */
  function CheckInteractive(e: Entity): (r: Entity) {
    if e.sleepTime > 0 && e.sumExec > 0 then
      var ratio := e.sleepTime * 100 / e.sumExec;
      if ratio > 150 then e.(interactive := true)
      else if ratio < 50 then e.(cpuBound := true, interactive := false)
      else e
    else e
  }

  /** A process counts as interactive from 1.51 times its run time asleep on, and as
      CPU-bound, for good, below half of it; in between nothing changes, nor before it has
      both slept and run. */
  lemma FlagsExact(e: Entity)
    ensures var r := CheckInteractive(e);
      var slept := e.sleepTime > 0 && e.sumExec > 0;
      && r == e.(interactive := r.interactive, cpuBound := r.cpuBound)
      && (slept && 100 * e.sleepTime >= 151 * e.sumExec ==> r.interactive && r.cpuBound == e.cpuBound)
      && (slept && 2 * e.sleepTime < e.sumExec ==> !r.interactive && r.cpuBound)
      && (!slept || (e.sumExec <= 2 * e.sleepTime && 100 * e.sleepTime < 151 * e.sumExec) ==> r == e)
  {
    if e.sleepTime > 0 && e.sumExec > 0 {
      RatioAtLeast(100 * e.sleepTime, e.sumExec, 151);
      RatioAtLeast(100 * e.sleepTime, e.sumExec, 50);
    }
  }

  lemma RatioAtLeast(a: nat, b: nat, c: nat)
    requires b > 0
    ensures a / b >= c <==> a >= b * c
  {
    assert a == a / b * b + a % b;
    if a / b >= c { assert a / b * b >= c * b; }
    if a / b < c { assert (a / b + 1) * b <= c * b; }
  }

  /** sched_update_priority */
  function UpdatePriority(e: Entity): (r: Entity)
    ensures r == e.(dynPrio := r.dynPrio)
    ensures e.rt ==> r == e
    ensures !e.rt ==> NORMAL_MIN <= r.dynPrio <= IDLE_MAX
  {
    if e.rt then e else
    var adjustment := (if e.cpuBound then 1 else if e.interactive then -1 else 0) + CDiv(e.nice, 4);
    var prio := e.staticPrio + adjustment;
    e.(dynPrio := if prio < NORMAL_MIN then NORMAL_MIN else if prio > IDLE_MAX then IDLE_MAX else prio)
  }

  /** A greater nice value never gives a better priority, and a CPU-bound process never
      has a better one than an interactive one. */
  lemma PriorityOrder(e: Entity, e': Entity)
    requires !e.rt && !e'.rt && e'.staticPrio == e.staticPrio && e.nice <= e'.nice
    requires (e.cpuBound ==> e'.cpuBound) && (e'.interactive && !e'.cpuBound ==> e.interactive)
    ensures UpdatePriority(e).dynPrio <= UpdatePriority(e').dynPrio
  {
    assert CDiv(e.nice, 4) <= CDiv(e'.nice, 4);
  }

  /** x is the priority before it is kept in the normal range: the static one, one worse
      if CPU-bound and else one better if interactive, one worse for every full four steps
      of nice above 0 and one better for every full four below. */
  ghost predicate Adjusted(e: Entity, x: int) {
    var steps := x - e.staticPrio + (if e.cpuBound then -1 else if e.interactive then 1 else 0);
    if e.nice >= 0 then 4 * steps <= e.nice < 4 * steps + 4 else 4 * steps - 4 < e.nice <= 4 * steps
  }

  function Kept(x: int): (prio: nat)
    ensures NORMAL_MIN <= prio <= IDLE_MAX
  {
    if x < NORMAL_MIN then NORMAL_MIN else if x > IDLE_MAX then IDLE_MAX else x
  }

  /** The priority of an entity that is not real-time is up to date. */
  ghost predicate UpToDate(e: Entity) {
    exists x :: Adjusted(e, x) && e.dynPrio == Kept(x)
  }

  lemma PriorityExact(e: Entity, x: int)
    requires !e.rt && Adjusted(e, x)
    ensures UpdatePriority(e).dynPrio == Kept(x) && UpToDate(UpdatePriority(e))
  {
    assert Adjusted(UpdatePriority(e), x);
  }

  lemma Updated(e: Entity)
    ensures !e.rt ==> UpToDate(UpdatePriority(e))
  {
    var flags := if e.cpuBound then 1 else if e.interactive then -1 else 0;
    var x := e.staticPrio + flags + (if e.nice >= 0 then e.nice / 4 else -((-e.nice) / 4));
    assert Adjusted(UpdatePriority(e), x);
  }

  lemma SameUpToDate(e: Entity, e': Entity)
    requires e'.staticPrio == e.staticPrio && e'.cpuBound == e.cpuBound && e'.interactive == e.interactive
    requires e'.nice == e.nice && e'.dynPrio == e.dynPrio && UpToDate(e)
    ensures UpToDate(e')
  {
    var x :| Adjusted(e, x) && e.dynPrio == Kept(x);
    assert Adjusted(e', x);
  }

  /** Four more nice from 0 up make a process exactly one worse, four less from 0 down one
      better, as far as the normal range goes. */
  lemma NiceSteps(e: Entity)
    requires !e.rt && !e.cpuBound && !e.interactive && NORMAL_MIN <= e.staticPrio <= IDLE_MAX
    ensures e.nice >= 0 ==> UpdatePriority(e.(nice := e.nice + 4)).dynPrio == Kept(UpdatePriority(e).dynPrio + 1)
    ensures e.nice <= 0 ==> UpdatePriority(e.(nice := e.nice - 4)).dynPrio == Kept(UpdatePriority(e).dynPrio - 1)
  {
    assert e.nice >= 0 ==> (e.nice + 4) / 4 == e.nice / 4 + 1;
    assert e.nice <= 0 ==> (-e.nice + 4) / 4 == (-e.nice) / 4 + 1;
  }

  /** Being CPU-bound is exactly one worse than neither, being interactive one better, and
      both together are as bad as CPU-bound, whatever the nice value, unless that is
      already outside the normal range. */
  lemma FlagSteps(e: Entity, x: int)
    requires !e.rt && !e.cpuBound && !e.interactive && Adjusted(e, x) && NORMAL_MIN <= x <= IDLE_MAX
    ensures UpdatePriority(e).dynPrio == x
    ensures UpdatePriority(e.(cpuBound := true)).dynPrio == (if x == IDLE_MAX then x else x + 1)
    ensures UpdatePriority(e.(interactive := true)).dynPrio == (if x == NORMAL_MIN then x else x - 1)
    ensures UpdatePriority(e.(cpuBound := true, interactive := true)) ==
      UpdatePriority(e.(cpuBound := true)).(interactive := true)
  {
    PriorityExact(e, x);
    PriorityExact(e.(cpuBound := true), x + 1);
    PriorityExact(e.(interactive := true), x - 1);
  }

  /** With no flags and nice 0 the priority is the static one, kept in the normal range. */
  lemma PlainPriority(e: Entity)
    requires !e.rt && !e.cpuBound && !e.interactive && -4 < e.nice < 4
    ensures UpdatePriority(e).dynPrio ==
      if e.staticPrio < NORMAL_MIN then NORMAL_MIN else if e.staticPrio > IDLE_MAX then IDLE_MAX else e.staticPrio
  {
    assert CDiv(e.nice, 4) == 0;
  }

  /** sched_update_vruntime, without its update of the queue's min_vruntime */
  function Charge(e: Entity, delta: nat): (r: Entity) {
    e.(vruntime := e.vruntime + delta * 1024 / Weight(e.dynPrio), sumExec := e.sumExec + delta)
  }

  /** What sched_wakeup makes of a process before it queues it. */
  function Woken(e: Entity): (r: Entity)
    requires e.dynPrio < LEVELS
    ensures r.dynPrio < LEVELS && r.state == Runnable && r.staticPrio == e.staticPrio && r.queued == e.queued
  {
    UpdatePriority(e.(state := Runnable, next := None, prev := None))
  }

  /** A woken process keeps all but its state, list pointers and priority. */
  lemma WokenExact(e: Entity)
    requires e.dynPrio < LEVELS
    ensures var r := Woken(e);
      && r == e.(state := Runnable, next := None, prev := None, dynPrio := r.dynPrio)
      && (e.rt ==> r.dynPrio == e.dynPrio) && (!e.rt ==> UpToDate(r))
  {
    Updated(e.(state := Runnable, next := None, prev := None));
  }

  function Least2(a: nat, b: nat): nat {
    if a < b then a else b
  }

  /** What a process that used the processor for `delta` comes back as. */
  function Settled(e: Entity, delta: nat): (r: Entity)
    requires e.dynPrio < LEVELS
    ensures r.dynPrio < LEVELS && r.staticPrio == e.staticPrio && r.state == e.state
    ensures r.next == e.next && r.prev == e.prev && r.bucket == e.bucket && r.queued == e.queued
  {
    UpdatePriority(CheckInteractive(Charge(e, delta)))
  }

  /** A process that comes back is charged, its flags are set anew and then its priority. */
  lemma SettledExact(e: Entity, delta: nat)
    requires e.dynPrio < LEVELS
    ensures var r := Settled(e, delta);
      var flags := CheckInteractive(e.(sumExec := e.sumExec + delta));
      && r == e.(vruntime := r.vruntime, sumExec := e.sumExec + delta, dynPrio := r.dynPrio,
                 interactive := flags.interactive, cpuBound := flags.cpuBound)
      && Quotient(1024 * delta, Weight(e.dynPrio), r.vruntime - e.vruntime)
      && (e.rt ==> r.dynPrio == e.dynPrio) && (!e.rt ==> UpToDate(r))
  {
    var c := Charge(e, delta);
    ChargeExact(e, delta);
    FlagsExact(c);
    Updated(CheckInteractive(c));
  }

  /** d is a by b, rounded down. */
  ghost predicate Quotient(a: nat, b: nat, d: int) {
    d >= 0 && d * b <= a < (d + 1) * b
  }

  /** The charge is delta * 1024 / weight, rounded down: nothing for a short time. */
  lemma ChargeExact(e: Entity, delta: nat)
    ensures var d := Charge(e, delta).vruntime - e.vruntime;
      && Quotient(1024 * delta, Weight(e.dynPrio), d)
      && (d == 0 <==> 1024 * delta < Weight(e.dynPrio))
  {
    var w := Weight(e.dynPrio);
    assert delta * 1024 == delta * 1024 / w * w + delta * 1024 % w;
    RatioAtLeast(delta * 1024, w, 1);
  }

  // ------------------------------------------------------------- the lists

  function Entry(s: seq<nat>, i: int): (e: Option<nat>) {
    if 0 <= i < |s| then Some(s[i]) else None
  }

  /** Node i of bucket q points to its neighbours and knows its bucket. */
  ghost predicate NodeAt(se: Table, s: seq<nat>, q: nat, i: int)
    requires 0 <= i < |s|
  {
    && s[i] in se
    && se[s[i]].next == Entry(s, i + 1) && se[s[i]].prev == Entry(s, i - 1)
    && se[s[i]].bucket == q && se[s[i]].queued
  }

  ghost predicate Distinct(s: seq<nat>) {
    forall i, j {:trigger s[i], s[j]} :: 0 <= i < j < |s| ==> s[i] != s[j]
  }

  ghost predicate Chain(se: Table, s: seq<nat>, q: nat) {
    Distinct(s) && forall i :: 0 <= i < |s| ==> NodeAt(se, s, q, i)
  }

  /** Following next from the head lists the bucket; following prev from the tail lists
      it backwards. */
  function Forward(se: Table, p: Option<nat>, n: nat): (s: seq<nat>)
    decreases n
  {
    if n == 0 || p.None? || p.value !in se then [] else [p.value] + Forward(se, se[p.value].next, n - 1)
  }

  function Backward(se: Table, p: Option<nat>, n: nat): (s: seq<nat>)
    decreases n
  {
    if n == 0 || p.None? || p.value !in se then [] else [p.value] + Backward(se, se[p.value].prev, n - 1)
  }

  function Reversed(s: seq<nat>): (r: seq<nat>) {
    if s == [] then [] else [s[|s| - 1]] + Reversed(s[..|s| - 1])
  }

  lemma ForwardIs(se: Table, s: seq<nat>, q: nat, i: nat)
    requires Chain(se, s, q) && i <= |s|
    ensures Forward(se, Entry(s, i), |s| - i) == s[i..]
    decreases |s| - i
  {
    if i < |s| {
      assert NodeAt(se, s, q, i);
      ForwardIs(se, s, q, i + 1);
    }
  }

  lemma BackwardIs(se: Table, s: seq<nat>, q: nat, i: nat)
    requires Chain(se, s, q) && i <= |s|
    ensures Backward(se, Entry(s, i - 1), i) == Reversed(s[..i])
    decreases i
  {
    if i > 0 {
      assert NodeAt(se, s, q, i - 1);
      BackwardIs(se, s, q, i - 1);
      assert s[..i][..i - 1] == s[..i - 1];
    }
  }

  /** The two directions of a bucket are each other's reverse. */
  lemma ForwardBackward(se: Table, s: seq<nat>, q: nat)
    requires Chain(se, s, q)
    ensures Forward(se, Entry(s, 0), |s|) == s
    ensures Backward(se, Entry(s, |s| - 1), |s|) == Reversed(s)
  {
    ForwardIs(se, s, q, 0);
    BackwardIs(se, s, q, |s|);
    assert s[..|s|] == s;
  }

  /** An entity without its list fields. */
  function Core(e: Entity): Entity {
    e.(next := None, prev := None)
  }

  /** se' differs from se only in list pointers, except at p. */
  ghost predicate Relinked(se: Table, se': Table, p: nat) {
    se'.Keys == se.Keys && forall x :: x in se && x != p ==> Core(se'[x]) == Core(se[x])
  }

  lemma RelinkedTwice(se: Table, se': Table, se'': Table, p: nat)
    requires Relinked(se, se', p) && Relinked(se', se'', p)
    ensures Relinked(se, se'', p)
  {
    forall x | x in se && x != p
      ensures Core(se''[x]) == Core(se[x])
    {
      assert x in se' && Core(se'[x]) == Core(se[x]);
    }
  }

  // ---- the list surgery of sched_enqueue and sched_dequeue

  function LinkTail(se: Table, s: seq<nat>, q: nat, p: nat): (r: Table)
    requires p in se && forall i :: 0 <= i < |s| ==> s[i] in se
  {
    var r := se[p := se[p].(next := None, prev := Entry(s, |s| - 1), bucket := q, queued := true)];
    if s == [] then r else r[s[|s| - 1] := r[s[|s| - 1]].(next := Some(p))]
  }

  lemma LinkTailChain(se: Table, s: seq<nat>, q: nat, p: nat)
    requires p in se && Chain(se, s, q) && p !in s && forall i :: 0 <= i < |s| ==> s[i] in se
    ensures Chain(LinkTail(se, s, q, p), s + [p], q) && Relinked(se, LinkTail(se, s, q, p), p)
  {
    var r := LinkTail(se, s, q, p);
    forall i | 0 <= i <= |s| ensures NodeAt(r, s + [p], q, i) {
      if i < |s| { assert NodeAt(se, s, q, i); }
    }
  }

  /** A chain stays a chain when only entities outside it change. */
  lemma ChainFrame(se: Table, se': Table, s: seq<nat>, q: nat)
    requires Chain(se, s, q) && forall i :: 0 <= i < |s| ==> s[i] in se && s[i] in se' && se'[s[i]] == se[s[i]]
    ensures Chain(se', s, q)
  {
    forall i | 0 <= i < |s| ensures NodeAt(se', s, q, i) { assert NodeAt(se, s, q, i); }
  }

  function Unlink(se: Table, p: nat): (r: Table)
    requires p in se
  {
    var e := se[p];
    var r1 := if e.prev.Some? && e.prev.value in se then se[e.prev.value := se[e.prev.value].(next := e.next)] else se;
    var r2 := if e.next.Some? && e.next.value in r1 then r1[e.next.value := r1[e.next.value].(prev := e.prev)] else r1;
    r2[p := r2[p].(next := None, prev := None, queued := false)]
  }

  lemma UnlinkChain(se: Table, s: seq<nat>, q: nat, k: nat)
    requires Chain(se, s, q) && k < |s| && s[k] in se
    ensures Chain(Unlink(se, s[k]), s[..k] + s[k + 1..], q) && Relinked(se, Unlink(se, s[k]), s[k])
    ensures Unlink(se, s[k])[s[k]] == se[s[k]].(next := None, prev := None, queued := false)
  {
    var r, t := Unlink(se, s[k]), s[..k] + s[k + 1..];
    assert NodeAt(se, s, q, k);
    if k > 0 { assert NodeAt(se, s, q, k - 1); }
    if k + 1 < |s| { assert NodeAt(se, s, q, k + 1); }
    forall i | 0 <= i < |t| ensures NodeAt(r, t, q, i) {
      assert NodeAt(se, s, q, if i < k then i else i + 1);
    }
  }

  // ------------------------------------------------------------- the counters

  function Sum(sizes: seq<nat>): (n: nat) {
    if sizes == [] then 0 else Sum(sizes[..|sizes| - 1]) + sizes[|sizes| - 1]
  }

  lemma SumChange(sizes: seq<nat>, q: nat, n: nat)
    requires q < |sizes|
    ensures Sum(sizes[q := n]) == Sum(sizes) - sizes[q] + n
  {
    var r := sizes[q := n];
    var m := |sizes| - 1;
    if q == m {
      assert r[..m] == sizes[..m];
    } else {
      SumChange(sizes[..m], q, n);
      assert r[..m] == sizes[..m][q := n];
    }
  }

  lemma SumAtLeast(sizes: seq<nat>, q: nat)
    requires q < |sizes|
    ensures Sum(sizes) >= sizes[q]
  {
    SumChange(sizes, q, 0);
  }

  lemma SumZero(sizes: seq<nat>)
    requires forall q :: 0 <= q < |sizes| ==> sizes[q] == 0
    ensures Sum(sizes) == 0
  {
    if sizes != [] { SumZero(sizes[..|sizes| - 1]); }
  }

  /** The weight of the entities in a bucket. */
  function BucketWeight(se: Table, s: seq<nat>): (w: nat) {
    if s == [] then 0
    else BucketWeight(se, s[..|s| - 1]) + if s[|s| - 1] in se then Weight(se[s[|s| - 1]].dynPrio) else 0
  }

  lemma BucketWeightSame(se: Table, se': Table, s: seq<nat>)
    requires forall i :: 0 <= i < |s| ==> s[i] in se && s[i] in se' && se'[s[i]].dynPrio == se[s[i]].dynPrio
    ensures BucketWeight(se', s) == BucketWeight(se, s)
  {
    if s != [] { BucketWeightSame(se, se', s[..|s| - 1]); }
  }

  lemma BucketWeightCut(se: Table, s: seq<nat>, k: nat)
    requires k < |s| && s[k] in se
    ensures BucketWeight(se, s[..k] + s[k + 1..]) == BucketWeight(se, s) - Weight(se[s[k]].dynPrio)
  {
    var n, t := |s| - 1, s[..k] + s[k + 1..];
    if k == n {
      assert t == s[..n];
    } else {
      BucketWeightCut(se, s[..n], k);
      assert t[..n - 1] == s[..n][..k] + s[..n][k + 1..];
    }
  }

  function QueueWeights(se: Table, queues: seq<seq<nat>>): (ws: seq<nat>)
    ensures |ws| == |queues| && forall q :: 0 <= q < |ws| ==> ws[q] == BucketWeight(se, queues[q])
  {
    seq(|queues|, q requires 0 <= q < |queues| => BucketWeight(se, queues[q]))
  }

  /** The weight of everything that is queued. */
  function QueuedWeight(se: Table, queues: seq<seq<nat>>): (w: nat) {
    Sum(QueueWeights(se, queues))
  }

  // ------------------------------------------------------------- the runqueue

  /** The buckets: every head, tail and size is right and every list is well linked. */
  ghost predicate BucketAt(heads: seq<Option<nat>>, tails: seq<Option<nat>>, sizes: seq<nat>,
                           queues: seq<seq<nat>>, se: Table, q: nat)
    requires q < |heads| && q < |tails| && q < |sizes| && q < |queues|
  {
    && heads[q] == Entry(queues[q], 0) && tails[q] == Entry(queues[q], |queues[q]| - 1)
    && sizes[q] == |queues[q]| && Chain(se, queues[q], q)
  }

  ghost predicate Buckets(heads: seq<Option<nat>>, tails: seq<Option<nat>>, sizes: seq<nat>,
                          queues: seq<seq<nat>>, se: Table)
  {
    && |heads| == |tails| == |sizes| == |queues| == LEVELS
    && (forall q :: 0 <= q < LEVELS ==> BucketAt(heads, tails, sizes, queues, se, q))
    && (forall p :: p in se && se[p].queued ==> se[p].bucket < LEVELS && p in queues[se[p].bucket])
  }

  /** A queued entity is in the bucket it names and in no other. */
  lemma OneBucket(heads: seq<Option<nat>>, tails: seq<Option<nat>>, sizes: seq<nat>,
                  queues: seq<seq<nat>>, se: Table, q: nat, i: nat)
    requires Buckets(heads, tails, sizes, queues, se) && q < LEVELS && i < |queues[q]|
    ensures queues[q][i] in se && se[queues[q][i]].queued && se[queues[q][i]].bucket == q
  {
    assert BucketAt(heads, tails, sizes, queues, se, q);
    assert NodeAt(se, queues[q], q, i);
  }

  lemma TailOf(heads: seq<Option<nat>>, tails: seq<Option<nat>>, sizes: seq<nat>, queues: seq<seq<nat>>, se: Table,
               q: nat)
    requires Buckets(heads, tails, sizes, queues, se) && q < LEVELS
    ensures tails[q] == Entry(queues[q], |queues[q]| - 1) && forall i :: 0 <= i < |queues[q]| ==> queues[q][i] in se
  {
    assert BucketAt(heads, tails, sizes, queues, se, q);
    forall i | 0 <= i < |queues[q]| ensures queues[q][i] in se { assert NodeAt(se, queues[q], q, i); }
  }

  /** Putting p at the tail of bucket q. */
  lemma EnqueueKeeps(heads: seq<Option<nat>>, tails: seq<Option<nat>>, sizes: seq<nat>, queues: seq<seq<nat>>,
                     se: Table,
                     p: nat, q: nat, heads': seq<Option<nat>>, tails': seq<Option<nat>>, sizes': seq<nat>,
                     queues': seq<seq<nat>>, se': Table)
    requires Buckets(heads, tails, sizes, queues, se) && p in se && !se[p].queued && q < LEVELS
    requires heads' == if queues[q] == [] then heads[q := Some(p)] else heads
    requires tails' == tails[q := Some(p)] && sizes' == sizes[q := sizes[q] + 1]
    requires queues' == queues[q := queues[q] + [p]]
    requires (forall i :: 0 <= i < |queues[q]| ==> queues[q][i] in se) && se' == LinkTail(se, queues[q], q, p)
    ensures Buckets(heads', tails', sizes', queues', se') && Relinked(se, se', p)
    ensures p in se' && Core(se'[p]) == Core(se[p]).(bucket := q, queued := true)
  {
    var s := queues[q];
    forall b: nat, i | b < LEVELS && 0 <= i < |queues[b]|
      ensures queues[b][i] != p && queues[b][i] in se && se[queues[b][i]].bucket == b
    {
      OneBucket(heads, tails, sizes, queues, se, b, i);
    }
    assert BucketAt(heads, tails, sizes, queues, se, q);
    LinkTailChain(se, s, q, p);
    forall b: nat | b < LEVELS ensures BucketAt(heads', tails', sizes', queues', se', b) {
      assert BucketAt(heads, tails, sizes, queues, se, b);
      if b != q { ChainFrame(se, se', queues[b], b); }
    }
    forall x | x in se' && se'[x].queued ensures se'[x].bucket < LEVELS && x in queues'[se'[x].bucket] {
      if x != p { assert Core(se'[x]) == Core(se[x]); }
    }
  }

  /** Taking node k out of bucket q. */
  lemma DequeueKeeps(heads: seq<Option<nat>>, tails: seq<Option<nat>>, sizes: seq<nat>,
                     queues: seq<seq<nat>>, se: Table, q: nat, k: nat)
    requires Buckets(heads, tails, sizes, queues, se) && q < LEVELS && k < |queues[q]|
    ensures queues[q][k] in se && sizes[q] >= 1
    ensures var s, p := queues[q], queues[q][k];
      var e := se[p];
      && Buckets(if e.prev.None? then heads[q := e.next] else heads, if e.next.None? then tails[q := e.prev] else tails,
                 sizes[q := sizes[q] - 1], queues[q := s[..k] + s[k + 1..]], Unlink(se, p))
      && Relinked(se, Unlink(se, p), p)
      && Unlink(se, p)[p] == e.(next := None, prev := None, queued := false)
  {
    var s := queues[q];
    assert BucketAt(heads, tails, sizes, queues, se, q);
    assert NodeAt(se, s, q, k);
    UnlinkChain(se, s, q, k);
    var p, e := s[k], se[s[k]];
    var se' := Unlink(se, p);
    var heads' := if e.prev.None? then heads[q := e.next] else heads;
    var tails' := if e.next.None? then tails[q := e.prev] else tails;
    var sizes', queues' := sizes[q := sizes[q] - 1], queues[q := s[..k] + s[k + 1..]];
    forall b: nat | b < LEVELS ensures BucketAt(heads', tails', sizes', queues', se', b) {
      assert BucketAt(heads, tails, sizes, queues, se, b);
      if b != q {
        forall i | 0 <= i < |queues[b]| ensures queues[b][i] in se' && se'[queues[b][i]] == se[queues[b][i]] {
          OneBucket(heads, tails, sizes, queues, se, b, i);
          UnlinkFar(se, s, q, k, queues[b][i]);
        }
        ChainFrame(se, se', queues[b], b);
      }
    }
    assert s == s[..k] + [p] + s[k + 1..];
    forall x | x in se' && se'[x].queued ensures se'[x].bucket < LEVELS && x in queues'[se'[x].bucket] {
      assert x != p && Core(se'[x]) == Core(se[x]);
    }
  }

  /** Unlinking touches only entities of the same bucket. */
  lemma UnlinkFar(se: Table, s: seq<nat>, q: nat, k: nat, x: nat)
    requires Chain(se, s, q) && k < |s| && s[k] in se && x in se && se[x].bucket != q
    ensures x in Unlink(se, s[k]) && Unlink(se, s[k])[x] == se[x]
  {
    assert NodeAt(se, s, q, k);
    if k > 0 { assert NodeAt(se, s, q, k - 1); }
    if k + 1 < |s| { assert NodeAt(se, s, q, k + 1); }
  }

  /** Relinking leaves the weights of the buckets alone. */
  lemma SameWeights(queues: seq<seq<nat>>, se: Table, se': Table, p: nat, b: nat)
    requires b < |queues| && p in se && Relinked(se, se', p) && se'[p].dynPrio == se[p].dynPrio
    requires forall i :: 0 <= i < |queues[b]| ==> queues[b][i] in se
    ensures BucketWeight(se', queues[b]) == BucketWeight(se, queues[b])
  {
    forall i | 0 <= i < |queues[b]|
      ensures queues[b][i] in se' && se'[queues[b][i]].dynPrio == se[queues[b][i]].dynPrio
    {
      assert queues[b][i] != p ==> Core(se'[queues[b][i]]) == Core(se[queues[b][i]]);
    }
    BucketWeightSame(se, se', queues[b]);
  }

  /** A change of one bucket changes the total by its difference. */
  lemma OneBucketWeight(queues: seq<seq<nat>>, se: Table, se': Table, q: nat, s: seq<nat>)
    requires q < |queues|
    requires forall b :: 0 <= b < |queues| && b != q ==> BucketWeight(se', queues[b]) == BucketWeight(se, queues[b])
    ensures QueuedWeight(se', queues[q := s]) == QueuedWeight(se, queues) - BucketWeight(se,
        queues[q]) + BucketWeight(se', s)
  {
    var ws, ws' := QueueWeights(se, queues), QueueWeights(se', queues[q := s]);
    assert ws' == ws[q := BucketWeight(se', s)];
    SumChange(ws, q, BucketWeight(se', s));
  }

  /** Queueing p adds its weight to the total. */
  lemma EnqueueWeight(queues: seq<seq<nat>>, se: Table, se': Table, p: nat, q: nat)
    requires q < |queues| && p in se && Relinked(se, se', p) && se'[p].dynPrio == se[p].dynPrio
    requires forall b, i :: 0 <= b < |queues| && 0 <= i < |queues[b]| ==> queues[b][i] in se
    ensures QueuedWeight(se', queues[q := queues[q] + [p]]) == QueuedWeight(se, queues) + Weight(se[p].dynPrio)
  {
    forall b | 0 <= b < |queues| ensures BucketWeight(se', queues[b]) == BucketWeight(se, queues[b]) {
      SameWeights(queues, se, se', p, b);
    }
    OneBucketWeight(queues, se, se', q, queues[q] + [p]);
    assert (queues[q] + [p])[..|queues[q]|] == queues[q];
  }

  /** Unqueueing it takes its weight off. */
  lemma DequeueWeight(queues: seq<seq<nat>>, se: Table, se': Table, q: nat, k: nat)
    requires q < |queues| && k < |queues[q]| && queues[q][k] in se && Relinked(se, se', queues[q][k])
    requires se'[queues[q][k]].dynPrio == se[queues[q][k]].dynPrio
    requires forall b, i :: 0 <= b < |queues| && 0 <= i < |queues[b]| ==> queues[b][i] in se
    ensures var s := queues[q];
      QueuedWeight(se', queues[q := s[..k] + s[k + 1..]]) == QueuedWeight(se, queues) - Weight(se[s[k]].dynPrio)
  {
    var s := queues[q];
    forall b | 0 <= b < |queues| ensures BucketWeight(se', queues[b]) == BucketWeight(se, queues[b]) {
      SameWeights(queues, se, se', s[k], b);
    }
    OneBucketWeight(queues, se, se', q, s[..k] + s[k + 1..]);
    BucketWeightCut(se', s, k);
  }

  /** Changing fields that are not list fields. */
  lemma EditKeeps(heads: seq<Option<nat>>, tails: seq<Option<nat>>, sizes: seq<nat>, queues: seq<seq<nat>>,
                  se: Table, p: nat, e: Entity)
    requires Buckets(heads, tails, sizes, queues, se)
    requires if p in se then e.next == se[p].next && e.prev == se[p].prev && e.bucket == se[p].bucket
      && e.queued == se[p].queued
             else !e.queued
    ensures Buckets(heads, tails, sizes, queues, se[p := e])
  {
    var se' := se[p := e];
    forall q: nat | q < LEVELS ensures BucketAt(heads, tails, sizes, queues, se', q) {
      assert BucketAt(heads, tails, sizes, queues, se, q);
      forall i | 0 <= i < |queues[q]| ensures NodeAt(se', queues[q], q, i) { assert NodeAt(se, queues[q], q, i); }
    }
  }

  /** A bucket that does not hold p weighs the same whatever becomes of p. */
  lemma FarWeight(heads: seq<Option<nat>>, tails: seq<Option<nat>>, sizes: seq<nat>, queues: seq<seq<nat>>,
                  se: Table, p: nat, e: Entity, b: nat)
    requires Buckets(heads, tails, sizes, queues, se) && b < LEVELS
    requires p in se && se[p].queued ==> se[p].bucket != b
    ensures BucketWeight(se[p := e], queues[b]) == BucketWeight(se, queues[b])
  {
    forall i | 0 <= i < |queues[b]| ensures queues[b][i] in se && queues[b][i] != p {
      OneBucket(heads, tails, sizes, queues, se, b, i);
    }
    BucketWeightSame(se, se[p := e], queues[b]);
  }

  lemma NearWeight(se: Table, s: seq<nat>, q: nat, k: nat, e: Entity)
    requires Chain(se, s, q) && k < |s| && s[k] in se
    ensures BucketWeight(se[s[k] := e], s) == BucketWeight(se, s) + Weight(e.dynPrio) - Weight(se[s[k]].dynPrio)
  {
    var t, se' := s[..k] + s[k + 1..], se[s[k] := e];
    forall i | 0 <= i < |t| ensures t[i] in se && t[i] != s[k] { assert NodeAt(se, s, q, if i < k then i else i + 1); }
    BucketWeightCut(se, s, k);
    BucketWeightCut(se', s, k);
    BucketWeightSame(se, se', t);
  }

  /** The weight of the queues after such a change. */
  lemma EditWeight(heads: seq<Option<nat>>, tails: seq<Option<nat>>, sizes: seq<nat>, queues: seq<seq<nat>>,
                   se: Table, p: nat, e: Entity)
    requires Buckets(heads, tails, sizes, queues, se)
    ensures QueuedWeight(se[p := e], queues) == QueuedWeight(se, queues) +
      if p in se && se[p].queued then Weight(e.dynPrio) - Weight(se[p].dynPrio) else 0
  {
    forall b: nat | b < LEVELS && (p in se && se[p].queued ==> se[p].bucket != b)
      ensures BucketWeight(se[p := e], queues[b]) == BucketWeight(se, queues[b])
    {
      FarWeight(heads, tails, sizes, queues, se, p, e, b);
    }
    if p in se && se[p].queued {
      QueuedEditWeight(heads, tails, sizes, queues, se, p, e);
    } else {
      assert QueueWeights(se[p := e], queues) == QueueWeights(se, queues);
    }
  }

  lemma QueuedEditWeight(heads: seq<Option<nat>>, tails: seq<Option<nat>>, sizes: seq<nat>, queues: seq<seq<nat>>,
                         se: Table, p: nat, e: Entity)
    requires Buckets(heads, tails, sizes, queues, se) && p in se && se[p].queued
    requires forall b :: 0 <= b < LEVELS && b != se[p].bucket ==>
      BucketWeight(se[p := e], queues[b]) == BucketWeight(se, queues[b])
    ensures QueuedWeight(se[p := e], queues) == QueuedWeight(se, queues) + Weight(e.dynPrio) - Weight(se[p].dynPrio)
  {
    var q := se[p].bucket;
    var k :| 0 <= k < |queues[q]| && queues[q][k] == p;
    assert BucketAt(heads, tails, sizes, queues, se, q);
    NearWeight(se, queues[q], q, k, e);
    OneBucketWeight(queues, se, se[p := e], q, queues[q]);
    assert queues[q := queues[q]] == queues;
  }

  /** Removing an entity that is not queued. */
  lemma ForgetKeeps(heads: seq<Option<nat>>, tails: seq<Option<nat>>, sizes: seq<nat>, queues: seq<seq<nat>>, se: Table,
                    p: nat)
    requires Buckets(heads, tails, sizes, queues, se) && p in se && !se[p].queued
    ensures Buckets(heads, tails, sizes, queues, se - {p}) && QueuedWeight(se - {p}, queues) == QueuedWeight(se, queues)
  {
    var se' := se - {p};
    forall q: nat | q < LEVELS
      ensures BucketAt(heads, tails, sizes, queues, se', q)
      ensures BucketWeight(se', queues[q]) == BucketWeight(se, queues[q])
    {
      assert BucketAt(heads, tails, sizes, queues, se, q);
      forall i | 0 <= i < |queues[q]| ensures queues[q][i] in se' { OneBucket(heads, tails, sizes, queues, se, q, i); }
      ChainFrame(se, se', queues[q], q);
      BucketWeightSame(se, se', queues[q]);
    }
    assert QueueWeights(se', queues) == QueueWeights(se, queues);
  }

  /** What the state of a process says about its place. */
  ghost predicate EntityOk(e: Entity, current: bool) {
    && e.dynPrio < LEVELS && e.staticPrio < LEVELS
    && (e.queued ==> e.state == Runnable)
    && (e.state == Runnable && !e.queued ==> current)
    && (e.state == Running || e.state == Exited ==> current)
    && (current ==> !e.queued && (e.state == Running || e.state == Runnable || e.state == Exited))
  }

  ghost predicate StatesOk(se: Table, curr: Option<nat>) {
    && (forall p :: p in se ==> EntityOk(se[p], curr == Some(p)))
    && (curr.Some? ==> curr.value in se)
  }

  /** A 32-bit counter goes down by one. */
  function Less1(n: nat): (m: nat) {
    if n == 0 then 0xFFFF_FFFF else n - 1
  }

  /** The heads, tails and sizes are those of some queues with exactly the queued. */
  ghost predicate WellQueued(heads: seq<Option<nat>>, tails: seq<Option<nat>>, sizes: seq<nat>, se: Table) {
    exists queues :: Buckets(heads, tails, sizes, queues, se)
  }

  lemma EditFits(heads: seq<Option<nat>>, tails: seq<Option<nat>>, sizes: seq<nat>, se: Table, p: nat, e: Entity)
    requires p in se && e.next == se[p].next && e.prev == se[p].prev && e.bucket == se[p].bucket
    requires e.queued == se[p].queued
    ensures WellQueued(heads, tails, sizes, se[p := e]) <==> WellQueued(heads, tails, sizes, se)
  {
    assert se[p := e][p := se[p]] == se;
    if WellQueued(heads, tails, sizes, se) {
      var qs :| Buckets(heads, tails, sizes, qs, se);
      EditKeeps(heads, tails, sizes, qs, se, p, e);
    }
    if WellQueued(heads, tails, sizes, se[p := e]) {
      var qs :| Buckets(heads, tails, sizes, qs, se[p := e]);
      EditKeeps(heads, tails, sizes, qs, se[p := e], p, se[p]);
    }
  }

  lemma Slept(se: Table, se1: Table, se2: Table, se': Table, p: nat, slept: nat)
    requires p in se && se1 == se[p := se[p].(sleepTime := se[p].sleepTime + slept)]
    requires Relinked(se1, se2, p) && p in se2 && se2[p] == se1[p].(next := None, prev := None, queued := false)
    requires se' == se2[p := CheckInteractive(se2[p].(state := Sleeping))]
    ensures p in se' && Relinked(se, se', p) && se'[p].state == Sleeping
    ensures se'[p] == CheckInteractive(se[p].(sleepTime := se[p].sleepTime + slept, state := Sleeping,
                                              next := None, prev := None, queued := false))
  {
    forall x | x in se && x != p ensures Core(se'[x]) == Core(se[x]) { assert Core(se2[x]) == Core(se1[x]); }
  }

  lemma HeadlessBucket(heads: seq<Option<nat>>, tails: seq<Option<nat>>, sizes: seq<nat>, queues: seq<seq<nat>>,
                       se: Table, b: nat)
    ensures Buckets(heads, tails, sizes, queues, se) && b < LEVELS && heads[b].None? ==>
      sizes[b] == 0 && forall x :: x in se && se[x].queued ==> se[x].bucket != b
  {
    if Buckets(heads, tails, sizes, queues, se) && b < LEVELS { assert BucketAt(heads, tails, sizes, queues, se, b); }
  }

  /** Unlinking a process that is in no queue leaves nothing that fits. */
  lemma SleepBreaks(heads: seq<Option<nat>>, tails: seq<Option<nat>>, sizes: seq<nat>, queues: seq<seq<nat>>, se: Table,
                    p: nat, heads': seq<Option<nat>>, tails': seq<Option<nat>>, sizes': seq<nat>, se': Table)
    requires Buckets(heads, tails, sizes, queues, se) && p in se && !se[p].queued && se[p].bucket < LEVELS
    requires heads' == heads[se[p].bucket := None] && tails' == tails[se[p].bucket := None] && Relinked(se, se', p)
    requires sizes' == sizes[se[p].bucket := Less1(sizes[se[p].bucket])]
    ensures !WellQueued(heads', tails', sizes', se')
  {
    var b := se[p].bucket;
    assert BucketAt(heads, tails, sizes, queues, se, b);
    assert sizes'[b] != 0 || exists x :: x in se' && se'[x].queued && se'[x].bucket == b by {
      if queues[b] != [] {
        var x := queues[b][0];
        OneBucket(heads, tails, sizes, queues, se, b, 0);
        assert x in se' && Core(se'[x]) == Core(se[x]);
      }
    }
    if WellQueued(heads', tails', sizes', se') {
      var qs :| Buckets(heads', tails', sizes', qs, se');
      HeadlessBucket(heads', tails', sizes', qs, se', b);
      assert false;
    }
  }

  /** Only p and whether p is current have changed, other than list pointers. */
  lemma StatesKept(se: Table, curr: Option<nat>, se': Table, curr': Option<nat>, p: nat)
    requires StatesOk(se, curr) && p in se && Relinked(se, se', p)
    requires curr' == curr || ((curr == None || curr == Some(p)) && (curr' == None || curr' == Some(p)))
    requires EntityOk(se'[p], curr' == Some(p))
    ensures StatesOk(se', curr')
  {
    forall x | x in se' ensures EntityOk(se'[x], curr' == Some(x)) {
      if x != p { assert Core(se'[x]) == Core(se[x]) && EntityOk(se[x], curr == Some(x)); }
    }
  }

  class Runqueue {
    var heads: seq<Option<nat>>
    var tails: seq<Option<nat>>
    var sizes: seq<nat>
    var totalRunnable: nat
    var totalWeight: int   // total_weight is this value modulo 2^64
    var minVruntime: nat
    var curr: Option<nat>
    var se: Table
    ghost var queues: seq<seq<nat>>

    ghost predicate Lists()
      reads this
    {
      Buckets(heads, tails, sizes, queues, se) && totalRunnable == Sum(sizes)
    }

    /** How far total_weight is from the weight of what is queued. */
    ghost function Drift(): int
      reads this
    {
      totalWeight - QueuedWeight(se, queues)
    }

    /** Every RUNNABLE process but the current one is in exactly the bucket it names,
        the current one is in none, and the counters are exact. */
    ghost predicate Valid()
      reads this
    {
      && Lists() && minVruntime == 0
      && StatesOk(se, curr)
    }

    constructor ()
      ensures Valid() && se == map[] && curr == None && Drift() == 0
    {
      heads, tails, sizes := seq(LEVELS, _ => None), seq(LEVELS, _ => None), seq(LEVELS, _ => 0);
      totalRunnable, totalWeight, minVruntime, curr, se := 0, 0, 0, None, map[];
      queues := seq(LEVELS, _ => []);
      new;
      SumZero(sizes);
      SumZero(QueueWeights(se, queues));
    }

    /** The list part of sched_enqueue. */
    method LinkIn(p: nat, prio: nat)
      requires Buckets(heads, tails, sizes, queues, se) && p in se && !se[p].queued && prio < LEVELS
      modifies this`heads, this`tails, this`sizes, this`se, this`queues
      ensures Buckets(heads, tails, sizes, queues, se)
      ensures sizes == old(sizes)[prio := old(sizes)[prio] + 1]
      ensures queues == old(queues)[prio := old(queues)[prio] + [p]]
      ensures Relinked(old(se), se, p)
      ensures Core(se[p]) == Core(old(se[p])).(bucket := prio, queued := true)
    {
      TailOf(heads, tails, sizes, queues, se, prio);
      Attach(p, prio);
      sizes := sizes[prio := sizes[prio] + 1];
      queues := queues[prio := queues[prio] + [p]];
      EnqueueKeeps(old(heads), old(tails), old(sizes), old(queues), old(se), p, prio, heads, tails, sizes, queues, se);
    }

    /** The pointer updates of sched_enqueue. */
    method Attach(p: nat, prio: nat)
      requires p in se && prio < |heads| == |tails| == |queues|
      requires tails[prio] == Entry(queues[prio], |queues[prio]| - 1)
      requires forall i :: 0 <= i < |queues[prio]| ==> queues[prio][i] in se
      modifies this`heads, this`tails, this`se
      ensures se == LinkTail(old(se), queues[prio], prio, p) && tails == old(tails)[prio := Some(p)]
      ensures heads == if queues[prio] == [] then old(heads)[prio := Some(p)] else old(heads)
    {
      se := se[p := se[p].(next := None, prev := tails[prio], bucket := prio, queued := true)];
      if tails[prio].Some? {
        var t := tails[prio].value;
        se := se[t := se[t].(next := Some(p))];
      } else {
        heads := heads[prio := Some(p)];
      }
      tails := tails[prio := Some(p)];
    }

    /** sched_enqueue */
    method Enqueue(p: nat)
      requires Lists() && p in se && !se[p].queued && se[p].dynPrio < LEVELS
      modifies this`heads, this`tails, this`sizes, this`totalRunnable, this`totalWeight, this`se, this`queues
      ensures Lists() && Drift() == old(Drift())
      ensures queues == old(queues)[old(se[p].dynPrio) := old(queues)[old(se[p].dynPrio)] + [p]]
      ensures Relinked(old(se), se, p)
      ensures p in se && Core(se[p]) == Core(old(se[p])).(bucket := old(se[p].dynPrio), queued := true)
      ensures totalRunnable == old(totalRunnable) + 1
    {
      var prio := if se[p].dynPrio >= LEVELS then LEVELS - 1 else se[p].dynPrio;
      SumChange(sizes, prio, sizes[prio] + 1);
      AllQueued(heads, tails, sizes, queues, se);
      ghost var was := se;
      LinkIn(p, prio);
      EnqueueWeight(old(queues), was, se, p, prio);
      totalRunnable := totalRunnable + 1;
      totalWeight := totalWeight + Weight(se[p].dynPrio);
    }

    /** The pointer updates of sched_dequeue. */
    method Bypass(p: nat)
      requires p in se && se[p].bucket < |heads| == |tails|
      requires se[p].prev.Some? ==> se[p].prev.value in se && se[p].prev.value != p
      requires se[p].next.Some? ==> se[p].next.value in se && se[p].next.value != p
      modifies this`heads, this`tails, this`se
      ensures se == Unlink(old(se), p)
      ensures heads == if old(se[p]).prev.Some? then old(heads) else old(heads)[old(se[p].bucket) := old(se[p]).next]
      ensures tails == if old(se[p]).next.Some? then old(tails) else old(tails)[old(se[p].bucket) := old(se[p]).prev]
    {
      var prio, e := se[p].bucket, se[p];
      if e.prev.Some? {
        se := se[e.prev.value := se[e.prev.value].(next := e.next)];
      } else {
        heads := heads[prio := e.next];
      }
      if e.next.Some? {
        se := se[e.next.value := se[e.next.value].(prev := e.prev)];
      } else {
        tails := tails[prio := e.prev];
      }
      se := se[p := se[p].(next := None, prev := None, queued := false)];
    }

    /** sched_dequeue, which does not look whether p is queued. */
    method Unqueue(p: nat)
      requires p in se && se[p].bucket < |heads| == |tails| == |sizes|
      requires se[p].prev.Some? ==> se[p].prev.value in se && se[p].prev.value != p
      requires se[p].next.Some? ==> se[p].next.value in se && se[p].next.value != p
      modifies this`heads, this`tails, this`sizes, this`totalRunnable, this`totalWeight, this`se
      ensures se == Unlink(old(se), p)
      ensures heads == if old(se[p]).prev.Some? then old(heads) else old(heads)[old(se[p].bucket) := old(se[p]).next]
      ensures tails == if old(se[p]).next.Some? then old(tails) else old(tails)[old(se[p].bucket) := old(se[p]).prev]
      ensures sizes == old(sizes)[old(se[p].bucket) := Less1(old(sizes)[old(se[p].bucket)])]
      ensures totalRunnable == Less1(old(totalRunnable))
      ensures totalWeight == old(totalWeight) - Weight(old(se[p].dynPrio))
    {
      var prio := se[p].bucket;
      Bypass(p);
      sizes := sizes[prio := Less1(sizes[prio])];
      totalRunnable := Less1(totalRunnable);
      totalWeight := totalWeight - Weight(se[p].dynPrio);
    }

    /** sched_dequeue of entry k of a bucket */
    method CutOut(p: nat, ghost k: nat)
      requires Buckets(heads, tails, sizes, queues, se) && p in se && se[p].bucket < LEVELS
      requires k < |queues[se[p].bucket]| && queues[se[p].bucket][k] == p
      modifies this`heads, this`tails, this`sizes, this`totalRunnable, this`totalWeight, this`se, this`queues
      ensures totalRunnable == Less1(old(totalRunnable))
      ensures totalWeight == old(totalWeight) - Weight(old(se[p].dynPrio))
      ensures Buckets(heads, tails, sizes, queues, se)
      ensures var q := old(se[p].bucket);
        && old(sizes)[q] >= 1 && sizes == old(sizes)[q := old(sizes)[q] - 1]
        && queues == old(queues)[q := old(queues)[q][..k] + old(queues)[q][k + 1..]]
      ensures Relinked(old(se), se, p)
      ensures se[p] == old(se[p]).(next := None, prev := None, queued := false)
    {
      var prio := se[p].bucket;
      DequeueKeeps(heads, tails, sizes, queues, se, prio, k);
      assert BucketAt(heads, tails, sizes, queues, se, prio);
      Neighbours(se, queues[prio], prio, k);
      Unqueue(p);
      queues := queues[prio := queues[prio][..k] + queues[prio][k + 1..]];
    }

    /** sched_dequeue of a queued process */
    method Dequeue(p: nat) returns (ghost q: nat, ghost k: nat)
      requires Lists() && p in se && se[p].queued
      modifies this`heads, this`tails, this`sizes, this`totalRunnable, this`totalWeight, this`se, this`queues
      ensures Lists() && Drift() == old(Drift())
      ensures q == old(se[p].bucket) && q < LEVELS && k < |old(queues)[q]| && old(queues)[q][k] == p
      ensures queues == old(queues)[q := old(queues)[q][..k] + old(queues)[q][k + 1..]]
      ensures Relinked(old(se), se, p)
      ensures p in se && se[p] == old(se[p]).(next := None, prev := None, queued := false)
      ensures totalRunnable == old(totalRunnable) - 1
    {
      var prio := se[p].bucket;
      q := prio;
      k :| 0 <= k < |queues[prio]| && queues[prio][k] == p;
      AllQueued(heads, tails, sizes, queues, se);
      ghost var was := se;
      CutOut(p, k);
      SumChange(old(sizes), prio, sizes[prio]);
      SumAtLeast(old(sizes), prio);
      DequeueWeight(old(queues), was, se, prio, k);
    }
  
    /** Change fields of a process that are not list fields. */
    method Edit(p: nat, e: Entity)
      requires Lists()
      requires if p in se then e.next == se[p].next && e.prev == se[p].prev && e.bucket == se[p].bucket
        && e.queued == se[p].queued
               else !e.queued
      modifies this`se
      ensures Lists() && se == old(se)[p := e]
      ensures Drift() == old(Drift()) -
        if p in old(se) && old(se[p].queued) then Weight(e.dynPrio) - Weight(old(se[p].dynPrio)) else 0
    {
      EditKeeps(heads, tails, sizes, queues, se, p, e);
      EditWeight(heads, tails, sizes, queues, se, p, e);
      se := se[p := e];
    }

    /** sched_pick_next: the first process of the best bucket that is not empty if it is
        a real-time bucket, else its first process with the least vruntime. */
    method PickNext() returns (p: Option<nat>, ghost q: nat)
      requires Lists()
      ensures p.None? <==> forall b :: 0 <= b < LEVELS ==> queues[b] == []
      ensures p.Some? ==> Picked(queues, se, q, p.value)
    {
      p, q := None, 0;
      var prio := 0;
      while prio < LEVELS
        invariant prio <= LEVELS && forall b :: 0 <= b < prio ==> queues[b] == []
      {
        assert BucketAt(heads, tails, sizes, queues, se, prio);
        q := prio;
        if heads[prio].Some? {
          assert NodeAt(se, queues[prio], prio, 0);
          if prio <= RT_MAX {
            return heads[prio], q;
          }
          var best := LeastVruntime(prio);
          return Some(best), q;
        }
        prio := prio + 1;
      }
    }

    /** The inner loop of sched_pick_next. */
    method LeastVruntime(prio: nat) returns (best: nat)
      requires Lists() && prio < LEVELS && queues[prio] != []
      ensures exists k :: 0 <= k < |queues[prio]| && Least(se, queues[prio], k) && queues[prio][k] == best
    {
      ghost var s := queues[prio];
      assert BucketAt(heads, tails, sizes, queues, se, prio);
      assert NodeAt(se, s, prio, 0);
      best := heads[prio].value;
      var least := se[best].vruntime;
      var it := se[best].next;
      ghost var i, k := 1, 0;
      while it.Some?
        invariant 1 <= i <= |s| && it == Entry(s, i) && 0 <= k < i && best == s[k] && best in se
        invariant least == se[best].vruntime
        invariant forall j :: 0 <= j < i ==>
          s[j] in se && least <= se[s[j]].vruntime && (j < k ==> least < se[s[j]].vruntime)
        decreases |s| - i
      {
        assert NodeAt(se, s, prio, i);
        if se[it.value].vruntime < least {
          least, best, k := se[it.value].vruntime, it.value, i;
        }
        it, i := se[it.value].next, i + 1;
      }
      assert Least(se, s, k);
    }

    /** sched_fork */
    method Fork(p: nat)
      requires Valid() && p !in se
      modifies this`se
      ensures Valid() && Drift() == old(Drift())
      ensures se == old(se)[p := Fresh(minVruntime)]
      ensures p in se && se[p].state == Used && se[p].staticPrio == se[p].dynPrio == NORMAL_MIN && se[p].nice == 0
      ensures se[p].vruntime == minVruntime && se[p].sumExec == se[p].sleepTime == 0 && !se[p].rt
      ensures !se[p].interactive && !se[p].cpuBound && !se[p].queued
    {
      Edit(p, Fresh(minVruntime));
    }

    /** sched_wakeup of a new or sleeping process, which joins the queue its priority
        calls for. */
    method Admit(p: nat)
      requires Valid() && p in se && (se[p].state == Used || se[p].state == Sleeping)
      modifies this
      ensures Valid() && Drift() == old(Drift()) && curr == old(curr)
      ensures p in se && Relinked(old(se), se, p)
      ensures var e := Woken(old(se[p]));
        && Core(se[p]) == Core(e).(bucket := e.dynPrio, queued := true)
        && queues == old(queues)[e.dynPrio := old(queues)[e.dynPrio] + [p]]
    {
      assert EntityOk(se[p], curr == Some(p)) && curr != Some(p);
      ghost var e := Woken(se[p]);
      QueueAs(p, Woken(se[p]));
      assert se[p].dynPrio == e.dynPrio && se[p].staticPrio == e.staticPrio && se[p].state == Runnable && se[p].queued;
      StatesKept(old(se), curr, se, curr, p);
    }

    /** An entity that is in no queue gets the fields of e and is queued. */
    method QueueAs(p: nat, e: Entity)
      requires Lists() && p in se && !se[p].queued && !e.queued && e.dynPrio < LEVELS
      modifies this`heads, this`tails, this`sizes, this`totalRunnable, this`totalWeight, this`se, this`queues
      ensures Lists() && Drift() == old(Drift())
      ensures p in se && Relinked(old(se), se, p) && Core(se[p]) == Core(e).(bucket := e.dynPrio, queued := true)
      ensures queues == old(queues)[e.dynPrio := old(queues)[e.dynPrio] + [p]]
    {
      Renew(p, e);
      ghost var mid := se;
      Enqueue(p);
      RelinkedTwice(old(se), mid, se, p);
    }

    /** sched_wakeup */
    method Wakeup(p: nat)
      requires Valid() && p in se
      modifies this
      ensures Valid() && Drift() == old(Drift()) && curr == old(curr)
      ensures old(se[p].state) != Used && old(se[p].state) != Sleeping ==> se == old(se) && queues == old(queues)
      ensures old(se[p].state) == Used || old(se[p].state) == Sleeping ==>
        && p in se && Relinked(old(se), se, p) && AwakeAs(old(se[p]), se[p])
        && queues == old(queues)[se[p].bucket := old(queues)[se[p].bucket] + [p]]
    {
      if se[p].state != Sleeping && se[p].state != Used {
        return;
      }
      assert EntityOk(se[p], curr == Some(p));
      WokenExact(se[p]);
      ghost var e := Woken(se[p]);
      Admit(p);
      if !e.rt { SameUpToDate(e, se[p]); }
    }

    /** The call of sched_dequeue in it. */
    method LeaveBucket(p: nat)
      requires Lists() && p in se && se[p].bucket < LEVELS
      requires !se[p].queued ==> se[p].next.None? && se[p].prev.None?
      modifies this`heads, this`tails, this`sizes, this`totalRunnable, this`totalWeight, this`se, this`queues
      ensures p in se && Relinked(old(se), se, p)
      ensures se[p] == old(se[p]).(next := None, prev := None, queued := false)
      ensures old(se[p].queued) ==>
        Lists() && Drift() == old(Drift()) && TakenOut(old(queues), queues, old(se[p].bucket), p)
      ensures var b := old(se[p].bucket);
        !old(se[p].queued) ==>
          && heads == old(heads)[b := None] && tails == old(tails)[b := None]
          && |old(sizes)| == LEVELS && sizes == old(sizes)[b := Less1(old(sizes)[b])]
      ensures WellQueued(heads, tails, sizes, se) <==> old(se[p].queued)
    {
      if se[p].queued {
        ghost var b, k := Dequeue(p);
        assert WellQueued(heads, tails, sizes, se);
      } else {
        Unqueue(p);
        SleepBreaks(old(heads), old(tails), old(sizes), old(queues), old(se), p, heads, tails, sizes, se);
      }
    }

    /** sched_sleep of process p, which last ran `slept` ago (0 if it never did).  For a
        queued process it is what it should be.  For any other, as the one that calls
        condvar_wait, it empties the bucket the process was in last: no queues fit the
        heads, tails and sizes any more. */
    method Sleep(p: nat, slept: nat)
      requires Lists() && p in se && se[p].bucket < LEVELS
      requires !se[p].queued ==> se[p].next.None? && se[p].prev.None?  // as sched_fork and sched_dequeue leave it
      modifies this
      ensures p in se && Relinked(old(se), se, p) && se[p].state == Sleeping
      ensures se[p] == CheckInteractive(old(se[p]).(sleepTime := old(se[p].sleepTime) + slept, state := Sleeping,
                                                    next := None, prev := None, queued := false))
      ensures curr == old(curr) && minVruntime == old(minVruntime)
      ensures old(se[p].queued) ==> Lists() && Drift() == old(Drift())
      ensures old(se[p].queued) ==> TakenOut(old(queues), queues, old(se[p].bucket), p)
      ensures WellQueued(heads, tails, sizes, se) <==> old(se[p].queued)
      ensures var b := old(se[p].bucket);
        !old(se[p].queued) ==> heads == old(heads)[b := None] && tails == old(tails)[b := None]
    {
      Edit(p, se[p].(sleepTime := se[p].sleepTime + slept));
      ghost var se1 := se;
      LeaveBucket(p);
      ghost var se2 := se;
      Doze(p);
      Slept(old(se), se1, se2, se, p, slept);
    }

    /** The end of it. */
    method Doze(p: nat)
      requires p in se && !se[p].queued
      modifies this`se
      ensures se == old(se)[p := CheckInteractive(old(se[p]).(state := Sleeping))]
      ensures old(Lists()) ==> Lists() && Drift() == old(Drift())
      ensures WellQueued(heads, tails, sizes, se) <==> old(WellQueued(heads, tails, sizes, se))
    {
      ghost var e := CheckInteractive(se[p].(state := Sleeping));
      EditFits(heads, tails, sizes, se, p, e);
      if Lists() {
        EditKeeps(heads, tails, sizes, queues, se, p, e);
        EditWeight(heads, tails, sizes, queues, se, p, e);
      }
      se := se[p := CheckInteractive(se[p].(state := Sleeping))];
    }

    /** Overwrite an entity that is in no queue, list fields included. */
    method Renew(p: nat, e: Entity)
      requires Lists() && p in se && !se[p].queued && !e.queued
      modifies this`se
      ensures Lists() && se == old(se)[p := e] && Drift() == old(Drift())
    {
      ForgetKeeps(heads, tails, sizes, queues, se, p);
      EditKeeps(heads, tails, sizes, queues, se - {p}, p, e);
      EditWeight(heads, tails, sizes, queues, se - {p}, p, e);
      assert (se - {p})[p := e] == se[p := e];
      se := se[p := e];
    }

    /** The rebuilding loop of scheduler_start over the process table: it queues every
        RUNNABLE process of the table that is not.  Where every one is, as in every valid
        state without a current process, it changes nothing. */
    method Rebuild(table: seq<nat>)
      requires Lists() && forall p :: p in se ==> se[p].dynPrio < LEVELS
      modifies this`heads, this`tails, this`sizes, this`totalRunnable, this`totalWeight, this`se, this`queues
      ensures Lists() && Drift() == old(Drift())
      ensures AllIn(old(se)) ==> se == old(se) && queues == old(queues) && totalRunnable == old(totalRunnable)
      ensures RebuiltFrom(old(se), se, table)
    {
      var i := 0;
      while i < |table|
        invariant i <= |table| && Lists() && Drift() == old(Drift()) && forall p :: p in se ==> se[p].dynPrio < LEVELS
        invariant RebuiltFrom(old(se), se, table[..i])
        invariant AllIn(old(se)) ==> se == old(se) && queues == old(queues) && totalRunnable == old(totalRunnable)
      {
        ghost var was := se;
        RebuildOne(table[i]);
        RebuiltMore(old(se), was, se, table, i);
        i := i + 1;
      }
      assert table[..|table|] == table;
    }

    method RebuildOne(p: nat)
      requires Lists() && forall x :: x in se ==> se[x].dynPrio < LEVELS
      modifies this`heads, this`tails, this`sizes, this`totalRunnable, this`totalWeight, this`se, this`queues
      ensures Lists() && Drift() == old(Drift()) && forall x :: x in se ==> se[x].dynPrio < LEVELS
      ensures if p in old(se) && old(se)[p].state == Runnable && !old(se)[p].queued
        then
          && Relinked(old(se), se, p) && p in se
          && Core(se[p]) == Core(old(se)[p]).(bucket := old(se)[p].dynPrio, queued := true)
        else se == old(se) && queues == old(queues) && totalRunnable == old(totalRunnable)
    {
      if p in se && se[p].state == Runnable && !se[p].queued {
        ghost var was := se;
        Renew(p, se[p].(next := None, prev := None));
        Enqueue(p);
        forall x | x in se ensures se[x].dynPrio < LEVELS { assert x != p ==> Core(se[x]) == Core(was[x]); }
      }
    }

    /** The loop of scheduler_start that reclaims EXITED processes when nothing can run. */
    method Reclaim(table: seq<nat>)
      requires Lists() && forall p :: p in se && se[p].state == Exited ==> !se[p].queued
      modifies this`se
      ensures Lists() && Drift() == old(Drift()) && queues == old(queues)
      ensures se.Keys <= old(se.Keys) && forall p :: p in se ==> se[p] == old(se)[p]
      ensures forall p :: p in old(se) ==> (p in se <==> old(se)[p].state != Exited || p !in table)
    {
      var i := 0;
      while i < |table|
        invariant i <= |table| && Lists() && Drift() == old(Drift()) && queues == old(queues)
        invariant se.Keys <= old(se.Keys) && forall p :: p in se ==> se[p] == old(se)[p]
        invariant forall p :: p in old(se) ==> (p in se <==> old(se)[p].state != Exited || p !in table[..i])
      {
        var p := table[i];
        assert table[..i + 1] == table[..i] + [p];
        if p in se && se[p].state == Exited {
          ForgetKeeps(heads, tails, sizes, queues, se, p);
          se := se - {p};
        }
        i := i + 1;
      }
      assert table[..|table|] == table;
    }

    /** One turn of scheduler_start up to the switch to the process.  `table` is the
        process table; the loops that rebuild the queues from it and reclaim exited
        processes find nothing to do. */
    method Dispatch(table: seq<nat>) returns (p: Option<nat>, ghost q: nat)
      requires Valid() && curr == None
      modifies this
      ensures Valid() && Drift() == old(Drift())
      ensures p.None? ==> se == old(se) && queues == old(queues) && curr == None
      ensures p.None? <==> forall x :: x in old(se) ==> old(se)[x].state != Runnable
      ensures p.Some? ==> Picked(old(queues), old(se), q, p.value) && curr == p
      ensures p.Some? ==> TakenOut(old(queues), queues, q, p.value)
      ensures p.Some? ==> p.value in old(se) && Relinked(old(se), se, p.value) && se[p.value].bucket < LEVELS
      ensures p.Some? ==> se[p.value] == old(se)[p.value].(state := Running, next := None, prev := None,
                                                           queued := false)
    {
      p, q := None, 0;
      if totalRunnable == 0 {
        NoneRunnable();
        Rebuild(table);
        Reclaim(table);
        return;
      }
      SomeQueued(heads, tails, sizes, queues, se);
      p, q := PickNext();
      PickedQueued(heads, tails, sizes, queues, se, q, p.value);
      Switch(p.value);
    }

    /** A process that is dispatched and waits on a condition variable: the queues are
        never what they should be after that. */
    method DispatchThenWait(table: seq<nat>, slept: nat) returns (p: nat)
      requires Valid() && curr == None && exists x :: x in se && se[x].state == Runnable
      modifies this
      ensures p in se && se[p].state == Sleeping && curr == Some(p) && !WellQueued(heads, tails, sizes, se)
    {
      p := DispatchAny(table);
      Sleep(p, slept);
    }

    method DispatchAny(table: seq<nat>) returns (p: nat)
      requires Valid() && curr == None && exists x :: x in se && se[x].state == Runnable
      modifies this
      ensures Lists() && curr == Some(p) && p in se && se[p].bucket < LEVELS
      ensures !se[p].queued && se[p].next.None? && se[p].prev.None?
    {
      var next;
      ghost var q;
      next, q := Dispatch(table);
      p := next.value;
    }

    /** The chosen process leaves its queue and becomes the current one. */
    method Switch(p: nat)
      requires Valid() && curr == None && p in se && se[p].queued
      modifies this
      ensures Valid() && Drift() == old(Drift()) && curr == Some(p)
      ensures TakenOut(old(queues), queues, old(se[p].bucket), p) && Relinked(old(se), se, p) && se[p].bucket < LEVELS
      ensures se[p] == old(se)[p].(state := Running, next := None, prev := None, queued := false)
    {
      ghost var b, k := Dequeue(p);
      Edit(p, se[p].(state := Running));
      curr := Some(p);
      StatesKept(old(se), None, se, curr, p);
    }

    /** With nothing counted as runnable, nothing is. */
    lemma NoneRunnable()
      requires Valid() && curr == None && totalRunnable == 0
      ensures forall x :: x in se ==> se[x].state != Runnable
    {
      forall x | x in se ensures se[x].state != Runnable {
        assert EntityOk(se[x], false);
        if se[x].queued {
          assert BucketAt(heads, tails, sizes, queues, se, se[x].bucket);
          SumAtLeast(sizes, se[x].bucket);
        }
      }
    }

    /** scheduler_preempt, or a process that gives up the processor. */
    method Preempt()
      requires Valid() && curr.Some?
      modifies this`se
      ensures Valid() && Drift() == old(Drift())
      ensures se == old(se)[curr.value := old(se[curr.value]).(state := if old(se[curr.value]).state == Running
        then Runnable else old(se[curr.value]).state)]
    {
      var p := curr.value;
      if se[p].state == Running {
        Edit(p, se[p].(state := Runnable));
        StatesKept(old(se), curr, se, curr, p);
      } else {
        assert se[p := se[p]] == se;
      }
    }

    /** The current process exits. */
    method Exit()
      requires Valid() && curr.Some?
      modifies this`se
      ensures Valid() && Drift() == old(Drift())
      ensures se == old(se)[curr.value := old(se[curr.value]).(state := Exited)]
    {
      var p := curr.value;
      Edit(p, se[p].(state := Exited));
      StatesKept(old(se), curr, se, curr, p);
    }

    /** One turn of scheduler_start from the return of the process on, after it used
        the processor for `delta`. */
    method Return(delta: nat)
      requires Valid() && curr.Some? && (se[curr.value].state == Runnable || se[curr.value].state == Exited)
      modifies this
      ensures Valid() && Drift() == old(Drift()) && curr == None
      ensures var p, e := old(curr.value), old(se[curr.value]);
        if e.state == Exited then se == old(se) - {p} && queues == old(queues)
        else
          var e' := Settled(e, delta);
          && p in se && Core(se[p]) == Core(e').(bucket := e'.dynPrio, queued := true)
          && Relinked(old(se), se, p)
          && queues == old(queues)[e'.dynPrio := old(queues)[e'.dynPrio] + [p]]
    {
      var p := curr.value;
      var e := Settled(se[p], delta);
      minVruntime := Least2(e.vruntime, minVruntime);
      Edit(p, e);
      curr := None;
      if e.state == Runnable {
        Enqueue(p);
        StatesKept(old(se), Some(p), se, None, p);
      } else {
        ForgetKeeps(heads, tails, sizes, queues, se, p);
        se := se - {p};
      }
    }

    /** A queued process moves to the tail of the bucket its priority calls for. */
    method Requeue(p: nat)
      requires Lists() && p in se && se[p].queued && se[p].dynPrio < LEVELS
      modifies this`heads, this`tails, this`sizes, this`totalRunnable, this`totalWeight, this`se, this`queues
      ensures Lists() && Drift() == old(Drift()) && totalRunnable == old(totalRunnable)
      ensures p in se && Relinked(old(se), se, p) && Core(se[p]) == Core(old(se[p])).(bucket := old(se[p].dynPrio))
      ensures Moved(old(queues), queues, old(se[p].bucket), old(se[p].dynPrio), p)
    {
      ghost var q, k := Dequeue(p);
      ghost var mid := se;
      assert TakenOut(old(queues), queues, q, p);
      Enqueue(p);
      RelinkedTwice(old(se), mid, se, p);
    }

    /** sched_set_priority and sched_nice once the new fields e of process p are known:
        the fields change first, then a queued process moves to the tail of its bucket. */
    method Reprioritise(p: nat, e: Entity)
      requires Valid() && p in se
      requires e == se[p].(staticPrio := e.staticPrio, dynPrio := e.dynPrio, nice := e.nice, rt := e.rt)
      requires e.dynPrio < LEVELS && e.staticPrio < LEVELS
      modifies this
      ensures Valid() && curr == old(curr) && totalRunnable == old(totalRunnable)
      ensures p in se && Relinked(old(se), se, p)
      ensures Core(se[p]) == Core(e).(bucket := if e.queued then e.dynPrio else e.bucket)
      ensures if e.queued then Moved(old(queues), queues, old(se[p].bucket), e.dynPrio, p) else queues == old(queues)
      // total_weight stays as it was, so it drifts by the change of weight
      ensures Drift() == old(Drift()) - if e.queued then Weight(e.dynPrio) - Weight(old(se[p].dynPrio)) else 0
    {
      Edit(p, e);
      if se[p].state == Runnable && se[p].queued {
        Requeue(p);
      }
      StatesKept(old(se), curr, se, curr, p);
    }

    method SetPriority(p: nat, prio: nat)
      requires Valid() && p in se
      modifies this
      ensures Valid() && curr == old(curr) && totalRunnable == old(totalRunnable)
      ensures prio >= LEVELS ==> se == old(se) && queues == old(queues)
      ensures prio < LEVELS ==>
        && p in se && se[p].staticPrio == se[p].dynPrio == prio && (se[p].rt <==> prio <= RT_MAX)
        && SameButPriority(old(se[p]), se[p]) && se[p].nice == old(se[p].nice) && Relinked(old(se), se, p)
      ensures prio < LEVELS && old(se[p].queued) ==> Moved(old(queues), queues, old(se[p].bucket), prio, p)
      ensures !old(se[p].queued) ==> queues == old(queues)
      // total_weight is right afterwards exactly if the process was not queued, or
      // was queued with the same priority
      ensures old(Drift()) == 0 ==>
        (Drift() == 0 <==> prio >= LEVELS || !old(se[p].queued) || old(se[p].dynPrio) == prio)
    {
      if prio >= LEVELS {
        return;
      }
      assert EntityOk(se[p], curr == Some(p));
      OneWeight(se[p].dynPrio, prio);
      Reprioritise(p, se[p].(rt := prio <= RT_MAX, staticPrio := prio, dynPrio := prio));
    }

    method Nice(p: nat, nice: int)
      requires Valid() && p in se
      modifies this
      ensures Valid() && curr == old(curr) && totalRunnable == old(totalRunnable)
      ensures p in se && se[p].nice == (if nice < -20 then -20 else if nice > 19 then 19 else nice)
      ensures if old(se[p].rt) then se[p].dynPrio == old(se[p].dynPrio) else UpToDate(se[p])
      ensures SameButPriority(old(se[p]), se[p]) && se[p].staticPrio == old(se[p].staticPrio)
      ensures se[p].rt == old(se[p].rt) && Relinked(old(se), se, p)
      ensures if old(se[p].queued) then Moved(old(queues), queues, old(se[p].bucket), se[p].dynPrio, p)
        else queues == old(queues)
      ensures old(Drift()) == 0 ==>
        (Drift() == 0 <==> !old(se[p].queued) || old(se[p].dynPrio) == se[p].dynPrio)
    {
      var n := if nice < -20 then -20 else if nice > 19 then 19 else nice;
      ghost var e0, e := se[p], UpdatePriority(se[p].(nice := n));
      assert EntityOk(e0, curr == Some(p));
      Reprioritise(p, UpdatePriority(se[p].(nice := n)));
      Reniced(e0, n, se[p]);
      OneWeight(e0.dynPrio, e.dynPrio);
    }

    /** Any one event of a run; one that does not apply leaves everything as it is. */
    method Step(event: Event)
      requires Valid()
      modifies this
      ensures Valid() && Happened(event, old(se), old(curr), se, curr)
      ensures !event.Reprio? && !event.Renice? ==> Drift() == old(Drift())
    {
      match event
      case Create(p) =>
        if p !in se { Fork(p); }
      case Wake(p) =>
        if p in se { Wakeup(p); }
      case Choose(table) =>
        if curr == None {
          var p;
          ghost var q;
          p, q := Dispatch(table);
        }
      case Timer(delta) =>
        if curr.Some? { Tick(delta); }
      case Interrupt =>
        if curr.Some? { Preempt(); }
      case Finish =>
        if curr.Some? { Exit(); }
      case Back(delta) =>
        if curr.Some? && (se[curr.value].state == Runnable || se[curr.value].state == Exited) { Return(delta); }
      case Reprio(p, prio) =>
        if p in se { SetPriority(p, prio); }
      case Renice(p, nice) =>
        if p in se { Nice(p, nice); }
    }

    /** Every run keeps the invariant, and total_weight too if no priority is set. */
    method Run(events: seq<Event>) returns (ghost trace: seq<Moment>)
      requires Valid()
      modifies this
      ensures Valid()
      ensures |trace| == |events| + 1 && trace[0] == Moment(old(se), old(curr)) && trace[|events|] == Moment(se, curr)
      ensures forall i :: 0 <= i < |events| ==>
        Happened(events[i], trace[i].se, trace[i].curr, trace[i + 1].se, trace[i + 1].curr)
      ensures (forall e :: e in events ==> !e.Reprio? && !e.Renice?) ==> Drift() == old(Drift())
    {
      var i := 0;
      trace := [Moment(se, curr)];
      while i < |events|
        invariant i <= |events| && Valid()
        invariant |trace| == i + 1 && trace[0] == Moment(old(se), old(curr)) && trace[i] == Moment(se, curr)
        invariant forall j :: 0 <= j < i ==>
          Happened(events[j], trace[j].se, trace[j].curr, trace[j + 1].se, trace[j + 1].curr)
        invariant (forall e :: e in events ==> !e.Reprio? && !e.Renice?) ==> Drift() == old(Drift())
      {
        Step(events[i]);
        trace := trace + [Moment(se, curr)];
        i := i + 1;
      }
    }

    /** What the invariant means for the lists: in every bucket the forward list is the
        reverse of the backward list and the size is exact. */
    lemma WellLinked(q: nat)
      requires Valid() && q < LEVELS
      ensures |heads| == |tails| == |sizes| == |queues| == LEVELS
      ensures sizes[q] == |queues[q]| && Forward(se, heads[q], sizes[q]) == queues[q]
      ensures Backward(se, tails[q], sizes[q]) == Reversed(Forward(se, heads[q], sizes[q]))
      ensures totalRunnable == Sum(sizes)
    {
      assert BucketAt(heads, tails, sizes, queues, se, q);
      ForwardBackward(se, queues[q], q);
    }

    /** What it means for a process: it is RUNNABLE and not current exactly if it is in a
        bucket, that is the one it names, and it is there once. */
    lemma OnePlace(p: nat)
      requires Valid() && p in se
      ensures |queues| == LEVELS
      ensures se[p].state == Runnable && curr != Some(p) <==> exists q :: 0 <= q < LEVELS && p in queues[q]
      ensures forall q, i :: 0 <= q < LEVELS && 0 <= i < |queues[q]| && queues[q][i] == p ==> q == se[p].bucket
      ensures forall q, i, j :: 0 <= q < LEVELS && 0 <= i < j < |queues[q]| ==> queues[q][i] != p || queues[q][j] != p
    {
      assert EntityOk(se[p], curr == Some(p));
      forall q: nat, i: nat | q < LEVELS && i < |queues[q]|
        ensures queues[q][i] == p ==> se[p].queued && se[p].bucket == q
      {
        OneBucket(heads, tails, sizes, queues, se, q, i);
      }
      forall q: nat | q < LEVELS ensures Distinct(queues[q]) { assert BucketAt(heads, tails, sizes, queues, se, q); }
    }

    /** One slice: dispatch, use the processor, be preempted, return. */
    method Slice(table: seq<nat>, use: Use) returns (p: nat, ghost b: nat, ghost mid: seq<seq<nat>>)
      requires Valid() && curr == None && exists x :: x in se && se[x].state == Runnable
      modifies this
      ensures Valid() && curr == None && Drift() == old(Drift())
      ensures Picked(old(queues), old(se), b, p) && TakenOut(old(queues), mid, b, p)
      ensures p in old(se) && p in se && Relinked(old(se), se, p) && old(se)[p].dynPrio < LEVELS && |mid| == LEVELS
      ensures var e := Worked(old(se)[p], use);
        && Core(se[p]) == Core(e).(bucket := e.dynPrio, queued := true)
        && queues == mid[e.dynPrio := mid[e.dynPrio] + [p]]
    {
      var next;
      next, b := Dispatch(table);
      p, mid := next.value, queues;
      ghost var was := se;
      TickedDispatched(old(se)[p], se[p], use.ticks);
      UseSlice(use);
      RelinkedTwice(old(se), was, se, p);
    }

    /** scheduler_tick while the current process runs: it is charged for the time since
        the last charge. */
    method Tick(delta: nat)
      requires Valid() && curr.Some?
      modifies this`se, this`minVruntime
      ensures Valid() && Drift() == old(Drift())
      ensures var p, e := curr.value, old(se[curr.value]);
        se == old(se)[p := if e.state == Running then Charge(e, delta) else e]
    {
      var p := curr.value;
      if se[p].state == Running {
        minVruntime := Least2(Charge(se[p], delta).vruntime, minVruntime);
        Edit(p, Charge(se[p], delta));
        StatesKept(old(se), curr, se, curr, p);
      } else {
        assert se[p := se[p]] == se;
      }
    }

    method Ticks(ticks: seq<nat>)
      requires Valid() && curr.Some? && se[curr.value].state == Running
      modifies this`se, this`minVruntime
      ensures Valid() && Drift() == old(Drift())
      ensures se == old(se)[curr.value := Ticked(old(se[curr.value]), ticks)]
    {
      var i := 0;
      assert ticks[..0] == [];
      assert se[curr.value := se[curr.value]] == se;
      while i < |ticks|
        invariant i <= |ticks| && Valid() && Drift() == old(Drift())
        invariant se == old(se)[curr.value := Ticked(old(se[curr.value]), ticks[..i])]
      {
        Tick(ticks[i]);
        assert ticks[..i + 1][..i] == ticks[..i];
        i := i + 1;
      }
      assert ticks[..|ticks|] == ticks;
    }

    /** The current process runs, is preempted and returns. */
    method UseSlice(use: Use)
      requires Valid() && curr.Some? && se[curr.value].state == Running && se[curr.value].dynPrio < LEVELS
      modifies this
      ensures Valid() && Drift() == old(Drift()) && curr == None
      ensures var p, e := old(curr.value),
        Settled(Ticked(old(se[curr.value]), use.ticks).(state := Runnable), use.last);
        && p in se && Core(se[p]) == Core(e).(bucket := e.dynPrio, queued := true) && Relinked(old(se), se, p)
        && queues == old(queues)[e.dynPrio := old(queues)[e.dynPrio] + [p]]
    {
      Ticks(use.ticks);
      Preempt();
      Return(use.last);
    }

    lemma FirstRunnable(q: nat)
      requires Valid() && q < LEVELS && queues[q] != []
      ensures exists x :: x in se && se[x].state == Runnable
      ensures Distinct(queues[q])
    {
      OneBucket(heads, tails, sizes, queues, se, q, 0);
      assert BucketAt(heads, tails, sizes, queues, se, q);
      var x := queues[q][0];
      assert EntityOk(se[x], curr == Some(x));
    }

    /** A slice when the queues are fair. */
    method Round(table: seq<nat>, use: Use, ghost q: nat, ghost v: nat)
      requires Valid() && curr == None && Fair(queues, se, q, v) && SliceCharge(use, q) <= v
      modifies this
      ensures Valid() && curr == None && Fair(queues, se, q, v)
      ensures SameQueues(old(queues), queues, q) && OthersWait(old(queues)[q], old(se), se)
      ensures Vruntime(se, queues[q]) == old(Vruntime(se, queues[q])) + SliceCharge(use, q)
    {
      FirstRunnable(q);
      var p;
      ghost var b, mid;
      p, b, mid := Slice(table, use);
      FairRound(old(queues), old(se), mid, queues, se, b, q, v, p, use);
    }

    /** Any number of slices, each charged at least c and at most v. */
    method Rounds(table: seq<nat>, uses: seq<Use>, ghost q: nat, ghost c: nat, ghost v: nat)
      requires Valid() && curr == None && Fair(queues, se, q, v)
      requires forall i :: 0 <= i < |uses| ==> c <= SliceCharge(uses[i], q) <= v
      modifies this
      ensures Valid() && curr == None && Progress(old(queues), old(se), queues, se, q, v, Product(|uses|, c))
    {
      var i := 0;
      while i < |uses|
        invariant i <= |uses| && Valid() && curr == None
        invariant Progress(old(queues), old(se), queues, se, q, v, Product(i, c))
      {
        ghost var was, se1 := queues, se;
        Round(table, uses[i], q, v);
        StillFair(old(queues), old(se), was, se1, queues, se, q, v, Product(i, c), c);
        i := i + 1;
      }
    }

    /** Fairness: whatever slices are used, no two processes of the bucket are ever more
        than v apart, no process of a worse bucket is dispatched, and one that has not
        been dispatched has waited for at most 2 * v * n / c slices. */
    method Share(table: seq<nat>, uses: seq<Use>, ghost q: nat, ghost c: nat, ghost v: nat)
      requires Valid() && curr == None && Fair(queues, se, q, v)
      requires forall i :: 0 <= i < |uses| ==> c <= SliceCharge(uses[i], q) <= v
      modifies this
      ensures Valid() && curr == None && Fair(queues, se, q, v)
      ensures SameQueues(old(queues), queues, q) && OthersWait(old(queues)[q], old(se), se)
      ensures forall p :: p in old(queues)[q] && se[p].vruntime == old(se)[p].vruntime ==>
        |uses| * c <= 2 * v * |queues[q]|
    {
      Rounds(table, uses, q, c, v);
      NoneStarves(old(se), se, old(queues)[q], queues[q], q, v, |uses|, c);
    }

    /** A new process joins others that have not run yet. */
    method Join(p: nat)
      requires Valid() && curr == None && Untouched(queues, se) && p !in se
      modifies this
      ensures Valid() && curr == None && Untouched(queues, se) && queues[NORMAL_MIN] != []
      ensures se.Keys == old(se.Keys) + {p}
    {
      Fork(p);
      ghost var was := se;
      Admit(p);
      StillUntouched(old(queues), old(se), queues, was, se, p);
    }

    /** Any number of processes started on an idle machine are fair, with no slack. */
    method Populate(n: nat)
      requires Valid() && curr == None && se == map[]
      modifies this
      ensures Valid() && curr == None && Untouched(queues, se)
      ensures forall v: nat :: n > 0 ==> Fair(queues, se, NORMAL_MIN, v)
    {
      NoQueues(heads, tails, sizes, queues, se);
      var p := 0;
      while p < n
        invariant p <= n && Valid() && curr == None && Untouched(queues, se)
        invariant forall x :: x in se ==> x < p
        invariant p > 0 ==> queues[NORMAL_MIN] != []
      {
        Join(p);
        p := p + 1;
      }
    }
  }

  // ------------------------------------------------------------- fairness

  /** The events a run is made of. */
  datatype Event =
    | Create(p: nat)
    | Wake(p: nat)
    | Choose(table: seq<nat>)
    | Timer(delta: nat)
    | Interrupt
    | Finish
    | Back(delta: nat)
    | Reprio(p: nat, prio: nat)
    | Renice(p: nat, nice: int)

  /** A normal process that never slept, whose priority is q and stays q. */
  ghost predicate Steady(e: Entity, q: nat) {
    e.sleepTime == 0 && !e.rt && e.dynPrio == q && UpdatePriority(e) == e
  }

  /** A process that was dispatched and has been preempted. */
  function Dispatched(e: Entity): Entity {
    e.(state := Runnable, next := None, prev := None, queued := false)
  }

  /** The time a process uses in one slice: up to each timer tick, and from the last one
      on. */
  datatype Use = Use(ticks: seq<nat>, last: nat)

  /** What that adds to the vruntime of a process of bucket q, rounded at every tick. */
  function SliceCharge(use: Use, q: nat): (c: nat) {
    Charges(use.ticks, q) + use.last * 1024 / Weight(q)
  }

  function Charges(ticks: seq<nat>, q: nat): (c: nat) {
    if ticks == [] then 0 else Charges(ticks[..|ticks| - 1], q) + ticks[|ticks| - 1] * 1024 / Weight(q)
  }

  /** An entity after these ticks. */
  function Ticked(e: Entity, ticks: seq<nat>): (r: Entity) {
    e.(vruntime := e.vruntime + Charges(ticks, e.dynPrio), sumExec := e.sumExec + Sum(ticks))
  }

  lemma TickedDispatched(e: Entity, e': Entity, ticks: seq<nat>)
    requires e' == e.(state := Running, next := None, prev := None, queued := false)
    ensures Ticked(e', ticks).(state := Runnable) == Dispatched(Ticked(e, ticks))
  {
  }

  /** What a process comes back as after a slice. */
  function Worked(e: Entity, use: Use): (r: Entity)
    requires e.dynPrio < LEVELS
    ensures r.dynPrio < LEVELS
  {
    Settled(Dispatched(Ticked(e, use.ticks)), use.last)
  }

  /** p has not used more than v more than r. */
  ghost predicate Near(se: Table, p: nat, r: nat, v: nat) {
    p in se && r in se && se[p].vruntime <= se[r].vruntime + v
  }

  /** The processes of s stay in bucket q, and no two of them are more than v apart. */
  ghost predicate Close(se: Table, s: seq<nat>, q: nat, v: nat) {
    && (forall p :: p in s ==> p in se && Steady(se[p], q))
    && (forall p, r {:trigger Near(se, p, r, v)} :: p in s && r in s ==> Near(se, p, r, v))
  }

  /** Bucket q is the best that is not empty, and its processes are close. */
  ghost predicate Fair(queues: seq<seq<nat>>, se: Table, q: nat, v: nat) {
    && |queues| == LEVELS && RT_MAX < q < LEVELS && queues[q] != [] && Close(se, queues[q], q, v)
    && (forall b :: 0 <= b < q ==> queues[b] == [])
  }

  /** Processes that have been started and have not run. */
  ghost predicate Untouched(queues: seq<seq<nat>>, se: Table) {
    && |queues| == LEVELS && (forall b :: 0 <= b < LEVELS && b != NORMAL_MIN ==> queues[b] == [])
    && (forall p :: p in queues[NORMAL_MIN] ==> p in se)
    && (forall p :: p in se ==> Steady(se[p], NORMAL_MIN) && se[p].vruntime == 0)
  }

  lemma SameSteady(e: Entity, e': Entity, q: nat)
    requires Steady(e, q) && Core(e') == Core(e)
    ensures Steady(e', q) && e'.vruntime == e.vruntime
  {
    assert UpdatePriority(e').dynPrio == UpdatePriority(e).dynPrio;
  }

  lemma SteadyJoined(se: Table, se': Table, p: nat)
    requires p in se && se[p] == Fresh(0)
    requires (forall x :: x in se && x != p ==> Steady(se[x], NORMAL_MIN) && se[x].vruntime == 0)
    requires Relinked(se, se', p) && Core(se'[p]) == Core(Woken(Fresh(0))).(bucket := NORMAL_MIN, queued := true)
    ensures forall x :: x in se' ==> Steady(se'[x], NORMAL_MIN) && se'[x].vruntime == 0
  {
    forall x | x in se' && x != p ensures Steady(se'[x], NORMAL_MIN) && se'[x].vruntime == 0 {
      SameSteady(se[x], se'[x], NORMAL_MIN);
    }
  }

  lemma StillUntouched(queues: seq<seq<nat>>, se: Table, queues': seq<seq<nat>>, se1: Table, se': Table, p: nat)
    requires Untouched(queues, se) && p !in se && se1 == se[p := Fresh(0)] && Relinked(se1, se', p)
    requires var e := Woken(Fresh(0));
      && Core(se'[p]) == Core(e).(bucket := e.dynPrio, queued := true)
      && queues' == queues[e.dynPrio := queues[e.dynPrio] + [p]]
    ensures Untouched(queues', se') && queues'[NORMAL_MIN] != [] && se'.Keys == se.Keys + {p}
  {
    assert Woken(Fresh(0)).dynPrio == NORMAL_MIN;
    SteadyJoined(se1, se', p);
  }

  lemma NoQueues(heads: seq<Option<nat>>, tails: seq<Option<nat>>, sizes: seq<nat>, queues: seq<seq<nat>>, se: Table)
    requires Buckets(heads, tails, sizes, queues, se) && se == map[]
    ensures forall b :: 0 <= b < LEVELS ==> queues[b] == []
  {
    forall b: nat | b < LEVELS ensures queues[b] == [] {
      if queues[b] != [] { OneBucket(heads, tails, sizes, queues, se, b, 0); }
    }
  }

  ghost predicate SameMembers(s: seq<nat>, t: seq<nat>) {
    |s| == |t| && forall p :: p in s <==> p in t
  }

  /** Bucket q has the processes it had, and every other bucket is as it was. */
  ghost predicate SameQueues(queues: seq<seq<nat>>, queues': seq<seq<nat>>, q: nat) {
    && |queues'| == |queues| && q < |queues| && SameMembers(queues[q], queues'[q])
    && forall b :: 0 <= b < |queues| && b != q ==> queues'[b] == queues[b]
  }

  /** No process outside bucket q has been dispatched. */
  ghost predicate OthersWait(s: seq<nat>, se: Table, se': Table) {
    && se'.Keys == se.Keys
    && forall x :: x in se && x !in s ==> Core(se'[x]) == Core(se[x])
  }

  /** The virtual time the processes of s have used together. */
  function Vruntime(se: Table, s: seq<nat>): (n: nat) {
    if s == [] then 0 else Vruntime(se, s[..|s| - 1]) + if s[|s| - 1] in se then se[s[|s| - 1]].vruntime else 0
  }

  lemma VruntimeSame(se: Table, se': Table, s: seq<nat>)
    requires forall p :: p in s ==> p in se && p in se' && se'[p].vruntime == se[p].vruntime
    ensures Vruntime(se', s) == Vruntime(se, s)
  {
    if s != [] { VruntimeSame(se, se', s[..|s| - 1]); }
  }

  lemma VruntimeCut(se: Table, s: seq<nat>, k: nat)
    requires k < |s| && s[k] in se
    ensures Vruntime(se, s[..k] + s[k + 1..]) == Vruntime(se, s) - se[s[k]].vruntime
  {
    var n, t := |s| - 1, s[..k] + s[k + 1..];
    if k == n {
      assert t == s[..n];
    } else {
      VruntimeCut(se, s[..n], k);
      assert t[..n - 1] == s[..n][..k] + s[..n][k + 1..];
    }
  }

  /** n times x, by repeated addition. */
  function Product(n: nat, x: int): (r: int) {
    if n == 0 then 0 else Product(n - 1, x) + x
  }

  lemma ProductIs(n: nat, x: int)
    ensures Product(n, x) == n * x
  {
    if n > 0 {
      ProductIs(n - 1, x);
      assert n * x == (n - 1) * x + x;
    }
  }

  lemma VruntimeBounds(se: Table, s: seq<nat>, lo: int, hi: int)
    requires forall p :: p in s ==> p in se && lo <= se[p].vruntime <= hi
    ensures Product(|s|, lo) <= Vruntime(se, s) <= Product(|s|, hi)
  {
    if s != [] {
      VruntimeBounds(se, s[..|s| - 1], lo, hi);
    }
  }

  /** s with entry k moved to the end. */
  function Rotated(s: seq<nat>, k: nat): (t: seq<nat>)
    requires k < |s|
    ensures SameMembers(s, t)
  {
    assert s == s[..k] + [s[k]] + s[k + 1..];
    s[..k] + s[k + 1..] + [s[k]]
  }

  /** Charging the entry with the least vruntime keeps the bucket close. */
  lemma ChargedClose(se: Table, se': Table, s: seq<nat>, t: seq<nat>, k: nat, q: nat, c: nat, v: nat)
    requires Close(se, s, q, v) && Least(se, s, k) && Relinked(se, se', s[k]) && SameMembers(s, t) && c <= v
    requires Steady(se'[s[k]], q) && se'[s[k]].vruntime == se[s[k]].vruntime + c
    ensures Close(se', t, q, v)
  {
    var least := se[s[k]].vruntime;
    forall p | p in t
      ensures p in se' && p in s && least <= se[p].vruntime && Steady(se'[p], q)
      ensures se'[p].vruntime == se[p].vruntime + if p == s[k] then c else 0
    {
      var i :| 0 <= i < |s| && s[i] == p;
      if p != s[k] { assert Core(se'[p]) == Core(se[p]); }
    }
    forall p, r | p in t && r in t ensures Near(se', p, r, v) { assert Near(se, p, r, v); }
  }

  lemma ChargedVruntime(se: Table, se': Table, s: seq<nat>, k: nat, c: nat)
    requires k < |s| && Distinct(s) && s[k] in se && (forall p :: p in s ==> p in se) && Relinked(se, se', s[k])
    requires se'[s[k]].vruntime == se[s[k]].vruntime + c
    ensures Vruntime(se', Rotated(s, k)) == Vruntime(se, s) + c
  {
    var rest := s[..k] + s[k + 1..];
    VruntimeCut(se, s, k);
    forall p | p in rest ensures p in se && p in se' && se'[p].vruntime == se[p].vruntime {
      assert p != s[k] && p in s;
      assert Core(se'[p]) == Core(se[p]);
    }
    VruntimeSame(se, se', rest);
    assert Rotated(s, k)[..|s| - 1] == rest;
  }

  /** A process that comes back is still steady and is charged its slice. */
  lemma SteadyWorked(e: Entity, use: Use, q: nat)
    requires Steady(e, q) && q < LEVELS
    ensures Steady(Worked(e, use), q) && Worked(e, use).vruntime == e.vruntime + SliceCharge(use, q)
  {
    var e1 := Dispatched(Ticked(e, use.ticks));
    assert UpdatePriority(e1).dynPrio == UpdatePriority(e).dynPrio;
    assert CheckInteractive(Charge(e1, use.last)) == Charge(e1, use.last);
  }

  /** The list fields do not matter to that. */
  lemma SteadyCore(e: Entity, e': Entity, q: nat, bucket: nat)
    requires Steady(e, q) && Core(e') == Core(e).(bucket := bucket, queued := true)
    ensures Steady(e', q) && e'.vruntime == e.vruntime
  {
    assert UpdatePriority(e').dynPrio == UpdatePriority(e).dynPrio;
  }

  /** In a fair queue the choice is the least of bucket q. */
  lemma FairChoice(queues: seq<seq<nat>>, se: Table, b: nat, q: nat, v: nat, p: nat) returns (k: nat)
    requires Fair(queues, se, q, v) && Picked(queues, se, b, p)
    ensures b == q && k < |queues[q]| && queues[q][k] == p && Least(se, queues[q], k)
  {
    assert queues[b] != [] && queues[q] != [];
    k :| 0 <= k < |queues[b]| && Least(se, queues[b], k) && queues[b][k] == p;
  }

  /** Taking it out and putting it back at the tail rotates the bucket. */
  lemma RotatedQueues(queues: seq<seq<nat>>, queues1: seq<seq<nat>>, queues': seq<seq<nat>>, q: nat, k: nat, p: nat)
    requires q < |queues| && Distinct(queues[q]) && k < |queues[q]| && queues[q][k] == p
    requires TakenOut(queues, queues1, q, p)
    requires queues' == queues1[q := queues1[q] + [p]]
    ensures queues' == queues[q := Rotated(queues[q], k)]
  {
    var s := queues[q];
    var j :| 0 <= j < |s| && s[j] == p && queues1 == queues[q := s[..j] + s[j + 1..]];
    assert j == k;
  }

  /** One slice keeps the queues fair. */
  lemma FairRound(queues: seq<seq<nat>>, se: Table, queues1: seq<seq<nat>>, queues': seq<seq<nat>>, se': Table,
                  b: nat, q: nat, v: nat, p: nat, use: Use)
    requires Fair(queues, se, q, v) && Picked(queues, se, b, p) && TakenOut(queues, queues1, b, p)
    requires p in se && p in se' && Relinked(se, se', p) && se[p].dynPrio < LEVELS && SliceCharge(use, q) <= v
    requires var e := Worked(se[p], use);
      && e.dynPrio < |queues1| && Core(se'[p]) == Core(e).(bucket := e.dynPrio, queued := true)
      && queues' == queues1[e.dynPrio := queues1[e.dynPrio] + [p]]
    requires Distinct(queues[q])
    ensures Fair(queues', se', q, v) && SameQueues(queues, queues', q) && OthersWait(queues[q], se, se')
    ensures Vruntime(se', queues'[q]) == Vruntime(se, queues[q]) + SliceCharge(use, q)
  {
    var s, c := queues[q], SliceCharge(use, q);
    var k := FairChoice(queues, se, b, q, v, p);
    assert p in s && Steady(se[p], q);
    SteadyWorked(se[p], use, q);
    SteadyCore(Worked(se[p], use), se'[p], q, q);
    RotatedQueues(queues, queues1, queues', q, k, p);
    ChargedClose(se, se', s, Rotated(s, k), k, q, c, v);
    ChargedVruntime(se, se', s, k, c);
  }

  lemma Around(se: Table, s: seq<nat>, q: nat, v: nat, p: nat)
    requires Close(se, s, q, v) && p in s
    ensures Product(|s|, se[p].vruntime - v) <= Vruntime(se, s) <= Product(|s|, se[p].vruntime + v)
  {
    forall r | r in s ensures r in se && se[p].vruntime - v <= se[r].vruntime <= se[p].vruntime + v {
      assert Near(se, p, r, v) && Near(se, r, p, v);
    }
    VruntimeBounds(se, s, se[p].vruntime - v, se[p].vruntime + v);
  }

  /** A process that was not charged bounds what all the others were charged. */
  lemma BoundedWait(se: Table, se': Table, s: seq<nat>, t: seq<nat>, q: nat, v: nat, p: nat)
    requires Close(se, s, q, v) && Close(se', t, q, v) && SameMembers(s, t)
    requires p in s && se'[p].vruntime == se[p].vruntime
    ensures Vruntime(se', t) - Vruntime(se, s) <= 2 * v * |s|
  {
    var w := se[p].vruntime;
    Around(se, s, q, v, p);
    Around(se', t, q, v, p);
    Widths(|s|, w, v);
  }

  lemma Widths(n: nat, w: nat, v: nat)
    ensures Product(n, w + v) - Product(n, w - v) == 2 * v * n
  {
    ProductIs(n, w + v);
    ProductIs(n, w - v);
  }

  lemma NoneStarves(se: Table, se': Table, s: seq<nat>, t: seq<nat>, q: nat, v: nat, n: nat, c: nat)
    requires Close(se, s, q, v) && Close(se', t, q, v) && SameMembers(s, t)
    requires Vruntime(se', t) >= Vruntime(se, s) + Product(n, c)
    ensures forall p :: p in s && se'[p].vruntime == se[p].vruntime ==> n * c <= 2 * v * |t|
  {
    ProductIs(n, c);
    forall p | p in s && se'[p].vruntime == se[p].vruntime ensures n * c <= 2 * v * |t| {
      BoundedWait(se, se', s, t, q, v, p);
    }
  }

  /** The queues are fair, only bucket q has moved, and it was charged at least `total`. */
  ghost predicate Progress(queues: seq<seq<nat>>, se: Table, queues': seq<seq<nat>>, se': Table, q: nat, v: nat,
                           total: int) {
    && Fair(queues', se', q, v) && SameQueues(queues, queues', q) && OthersWait(queues[q], se, se')
    && Vruntime(se', queues'[q]) >= Vruntime(se, queues[q]) + total
  }

  lemma StillFair(queues: seq<seq<nat>>, se: Table, queues1: seq<seq<nat>>, se1: Table, queues': seq<seq<nat>>,
                  se': Table,
                  q: nat, v: nat, total: int, c: nat)
    requires Progress(queues, se, queues1, se1, q, v, total) && Fair(queues', se', q, v)
    requires SameQueues(queues1, queues', q) && OthersWait(queues1[q], se1, se')
    requires Vruntime(se', queues'[q]) >= Vruntime(se1, queues1[q]) + c
    ensures Progress(queues, se, queues', se', q, v, total + c)
  {
    StillWait(queues, queues1, queues', se, se1, se', q);
  }

  lemma StillWait(queues: seq<seq<nat>>, queues1: seq<seq<nat>>, queues': seq<seq<nat>>, se: Table, se1: Table,
                  se': Table, q: nat)
    requires SameQueues(queues, queues1, q) && SameQueues(queues1, queues', q)
    requires OthersWait(queues[q], se, se1) && OthersWait(queues1[q], se1, se')
    ensures SameQueues(queues, queues', q) && OthersWait(queues[q], se, se')
  {
    forall x | x in se && x !in queues[q] ensures Core(se'[x]) == Core(se[x]) { assert Core(se1[x]) == Core(se[x]); }
  }

  /** The entity sched_fork makes. */
  function Fresh(vruntime: nat): Entity {
    Entity(Used, vruntime, 0, 0, NORMAL_MIN, NORMAL_MIN, 0, false, false, false, None, None, 0, false)
  }

  ghost predicate AllIn(se: Table) {
    forall p :: p in se && se[p].state == Runnable ==> se[p].queued
  }

  /** Entry k is the first of s with the least vruntime. */
  ghost predicate Least(se: Table, s: seq<nat>, k: nat) {
    && k < |s| && s[k] in se
    && forall i :: 0 <= i < |s| ==>
        s[i] in se && se[s[k]].vruntime <= se[s[i]].vruntime && (i < k ==> se[s[k]].vruntime < se[s[i]].vruntime)
  }

  /** p is what sched_pick_next takes: no better bucket has a process. */
  ghost predicate Picked(queues: seq<seq<nat>>, se: Table, q: nat, p: nat) {
    && q < LEVELS && q < |queues| && queues[q] != []
    && (forall b :: 0 <= b < q ==> queues[b] == [])
    && (q <= RT_MAX ==> p == queues[q][0])
    && (q > RT_MAX ==> exists k :: 0 <= k < |queues[q]| && Least(se, queues[q], k) && queues[q][k] == p)
  }

  lemma PickedQueued(heads: seq<Option<nat>>, tails: seq<Option<nat>>, sizes: seq<nat>, queues: seq<seq<nat>>,
                     se: Table, q: nat, p: nat)
    requires Buckets(heads, tails, sizes, queues, se) && Picked(queues, se, q, p)
    ensures p in se && se[p].queued && se[p].bucket == q
  {
    if q <= RT_MAX {
      OneBucket(heads, tails, sizes, queues, se, q, 0);
    } else {
      var k :| 0 <= k < |queues[q]| && Least(se, queues[q], k) && queues[q][k] == p;
      OneBucket(heads, tails, sizes, queues, se, q, k);
    }
  }

  lemma SomeQueued(heads: seq<Option<nat>>, tails: seq<Option<nat>>, sizes: seq<nat>, queues: seq<seq<nat>>, se: Table)
    requires Buckets(heads, tails, sizes, queues, se) && Sum(sizes) != 0
    ensures exists q :: 0 <= q < LEVELS && queues[q] != []
  {
    if forall q :: 0 <= q < LEVELS ==> queues[q] == [] {
      forall q: nat | q < LEVELS ensures sizes[q] == 0 { assert BucketAt(heads, tails, sizes, queues, se, q); }
      SumZero(sizes);
    }
  }

  /** queues' is queues with one occurrence of p taken out of bucket q. */
  ghost predicate TakenOut(queues: seq<seq<nat>>, queues': seq<seq<nat>>, q: nat, p: nat) {
    q < |queues| && exists k ::
      0 <= k < |queues[q]| && queues[q][k] == p && queues' == queues[q := queues[q][..k] + queues[q][k + 1..]]
  }

  /** p has gone from bucket b to the end of bucket q. */
  ghost predicate Moved(queues: seq<seq<nat>>, queues': seq<seq<nat>>, b: nat, q: nat, p: nat) {
    exists mid :: TakenOut(queues, mid, b, p) && q < |mid| && queues' == mid[q := mid[q] + [p]]
  }

  /** A process that was woken is runnable and queued, with its priority up to date. */
  ghost predicate AwakeAs(e: Entity, e': Entity) {
    && e' == e.(state := Runnable, dynPrio := e'.dynPrio, bucket := e'.dynPrio, queued := true,
                next := e'.next, prev := e'.prev)
    && if e.rt then e'.dynPrio == e.dynPrio else UpToDate(e')
  }

  datatype Moment = Moment(se: Table, curr: Option<nat>)

  /** What an event comes to, if it applies. */
  ghost predicate Happened(event: Event, se: Table, curr: Option<nat>, se': Table, curr': Option<nat>) {
    match event
    case Create(p) => p in se'
    case Wake(p) => p in se && (se[p].state == Used || se[p].state == Sleeping) ==>
      p in se' && AwakeAs(se[p], se'[p])
    case Choose(_) => curr == None && (exists p :: p in se && se[p].state == Runnable) ==>
      curr'.Some? && curr'.value in se' && se'[curr'.value].state == Running
    case Timer(delta) => curr.Some? && curr.value in se && se[curr.value].state == Running ==>
      curr.value in se' && se'[curr.value].sumExec == se[curr.value].sumExec + delta
    case Interrupt => curr.Some? ==> curr' == curr && curr.value in se' && se'[curr.value].state != Running
    case Finish => curr.Some? ==> curr' == curr && curr.value in se' && se'[curr.value].state == Exited
    case Back(_) => curr.Some? && curr.value in se && se[curr.value].state != Running ==> curr' == None
    case Reprio(p, prio) => p in se && prio < LEVELS ==> p in se' && se'[p].dynPrio == prio
    case Renice(p, nice) => p in se && -20 <= nice <= 19 ==> p in se' && se'[p].nice == nice
  }

  /** Exactly the RUNNABLE processes of the table that were in no queue have joined one. */
  ghost predicate RebuiltFrom(se: Table, se': Table, table: seq<nat>) {
    se'.Keys == se.Keys && forall p :: p in se ==> Joined(se[p], se'[p], p in table)
  }

  predicate Joined(e: Entity, e': Entity, listed: bool) {
    Core(e') == if listed && e.state == Runnable && !e.queued
      then Core(e).(bucket := e.dynPrio, queued := true) else Core(e)
  }

  lemma RebuiltMore(se: Table, was: Table, se': Table, table: seq<nat>, i: nat)
    requires i < |table| && RebuiltFrom(se, was, table[..i])
    requires var p := table[i];
      if p in was && was[p].state == Runnable && !was[p].queued then
        && Relinked(was, se', p) && p in se'
        && Core(se'[p]) == Core(was[p]).(bucket := was[p].dynPrio, queued := true)
      else se' == was
    ensures RebuiltFrom(se, se', table[..i + 1])
  {
    assert table[..i + 1] == table[..i] + [table[i]];
    forall x | x in se ensures Joined(se[x], se'[x], x in table[..i + 1]) {
      assert Joined(se[x], was[x], x in table[..i]);
      assert x != table[i] ==> Core(se'[x]) == Core(was[x]);
    }
  }

  /** Only the priority, what it is made from, and the place in the lists may differ. */
  ghost predicate SameButPriority(e: Entity, e': Entity) {
    && e' == e.(staticPrio := e'.staticPrio, dynPrio := e'.dynPrio, nice := e'.nice, rt := e'.rt,
                next := e'.next, prev := e'.prev, bucket := e'.bucket)
    && e'.bucket == if e.queued then e'.dynPrio else e.bucket
  }

  /** What sched_nice makes of the entity e, which becomes e'. */
  lemma Reniced(e: Entity, n: int, e': Entity)
    requires e.dynPrio < LEVELS
    requires var u := UpdatePriority(e.(nice := n));
      Core(e') == Core(u).(bucket := if u.queued then u.dynPrio else u.bucket)
    ensures e'.nice == n && SameButPriority(e, e') && e'.staticPrio == e.staticPrio && e'.rt == e.rt
    ensures e'.dynPrio < LEVELS && if e.rt then e'.dynPrio == e.dynPrio else UpToDate(e')
  {
    Updated(e.(nice := n));
    if !e.rt { SameUpToDate(UpdatePriority(e.(nice := n)), e'); }
  }

  lemma AllQueued(heads: seq<Option<nat>>, tails: seq<Option<nat>>, sizes: seq<nat>, queues: seq<seq<nat>>, se: Table)
    requires Buckets(heads, tails, sizes, queues, se)
    ensures forall b, i :: 0 <= b < |queues| && 0 <= i < |queues[b]| ==> queues[b][i] in se
  {
    forall b, i | 0 <= b < |queues| && 0 <= i < |queues[b]| ensures queues[b][i] in se {
      OneBucket(heads, tails, sizes, queues, se, b, i);
    }
  }

  /** The neighbours of a queued entity exist and are not itself. */
  lemma Neighbours(se: Table, s: seq<nat>, q: nat, k: nat)
    requires Chain(se, s, q) && k < |s|
    ensures s[k] in se
    ensures se[s[k]].prev.Some? ==> se[s[k]].prev.value in se && se[s[k]].prev.value != s[k]
    ensures se[s[k]].next.Some? ==> se[s[k]].next.value in se && se[s[k]].next.value != s[k]
  {
    assert NodeAt(se, s, q, k);
    if k > 0 { assert NodeAt(se, s, q, k - 1); }
    if k + 1 < |s| { assert NodeAt(se, s, q, k + 1); }
  }
}
