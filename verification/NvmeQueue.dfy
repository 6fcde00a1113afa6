/** The submission and completion rings of kernel/src/drivers/drv_nvme.c, run
    against a device.

    The driver is nvme_do_one_cmd_synchronous, one step per ring access.  The device
    takes commands while its submission head differs from the tail doorbell and
    posts completions in order, with the phase tag of section 4.6 of the NVM Express
    Base Specification 1.4: the tag is 1 on the first pass over the ring and flips on
    every wrap.  Driver and device steps interleave freely.

    `submitted`, `posted`, `consumed` and the rounds are history variables, and each
    completion entry remembers the number of the command it completes (-1 for none);
    no step of the driver looks at any of them. */
module NvmeQueue {

  datatype Entry = Entry(phase: nat, cmd: int)

  datatype Driver = Ready | Waiting(left: int)

  datatype State = State(
    size: nat, cq: seq<Entry>,
    // nvme_queue_t
    tail: nat, head: nat, phase: nat, driver: Driver,
    // doorbell and device
    doorbell: nat, sqHead: nat, cqTail: nat, tag: nat,
    // history
    submitted: nat, posted: nat, consumed: nat, headRound: nat, postRound: nat)

  datatype Step = Submit | Post | Poll

  /** Index after i on a ring of n entries, as the driver computes it. */
  function Wrap(i: nat, n: nat): (j: nat)
    requires n >= 1
  {
    if i + 1 > n - 1 then 0 else i + 1
  }

  /** Commands the driver believes are outstanding. */
  function Left(head: nat, tail: nat, n: nat): int {
    if head < tail then tail - head else n - head + tail
  }

  /** The polled entry carries the other phase. */
  predicate Seen(s: State) {
    s.head < |s.cq| && s.cq[s.head].phase != s.phase
  }

  /** The device has a command it has not completed. */
  predicate Pending(s: State) {
    s.sqHead != s.doorbell
  }

  function Next(s: State, step: Step): (s': State)
    requires s.size >= 1
  {
    match step
    case Submit =>
      if s.driver != Ready then s else
      var tail := Wrap(s.tail, s.size);
      s.(tail := tail, doorbell := tail, submitted := s.submitted + 1,
         driver := Waiting(Left(s.head, tail, s.size)))
    case Post =>
      if !Pending(s) || s.cqTail >= |s.cq| then s else
      var wraps := Wrap(s.cqTail, s.size) == 0;
      s.(cq := s.cq[s.cqTail := Entry(s.tag, s.posted)],
         sqHead := Wrap(s.sqHead, s.size), cqTail := Wrap(s.cqTail, s.size),
         tag := if wraps then 1 - s.tag % 2 else s.tag,
         posted := s.posted + 1, postRound := if wraps then s.postRound + 1 else s.postRound)
    case Poll =>
      if s.driver.Ready? || !Seen(s) then s else
      var head := Wrap(s.head, s.size);
      s.(head := head, phase := if head == 0 then 1 - s.phase % 2 else s.phase,
         consumed := s.consumed + 1, headRound := if head == 0 then s.headRound + 1 else s.headRound,
         driver := if s.driver.left <= 1 then Ready else Waiting(s.driver.left - 1))
  }

  function Run(s: State, steps: seq<Step>): (s': State)
    requires s.size >= 1
    ensures s'.size == s.size
    decreases steps
  {
    if steps == [] then s else Run(Next(s, steps[0]), steps[1..])
  }

  /** The queue as nvme_init sets it up: zeroed rings of n entries. */
  function Initial(n: nat): State {
    State(n, seq(n, _ => Entry(0, -1)), 0, 0, 0, Ready, 0, 0, 0, 1, 0, 0, 0, 0, 0)
  }

  // ------------------------------------------------------------- the invariant

  /** How often the device has written entry j. */
  function Rounds(s: State, j: nat): nat {
    if j < s.cqTail then s.postRound + 1 else s.postRound
  }

  ghost predicate EntryOk(s: State, j: nat)
    requires j < |s.cq|
  {
    var r := Rounds(s, j);
    && s.cq[j].phase == r % 2
    && s.cq[j].cmd == if r == 0 then -1 else (r - 1) * s.size + j
  }

  ghost predicate Inv(s: State) {
    && s.size >= 2 && |s.cq| == s.size
    && s.tail < s.size && s.head < s.size && s.cqTail < s.size
    && s.consumed <= s.posted <= s.submitted
    && s.consumed == s.headRound * s.size + s.head && s.phase == s.headRound % 2
    && s.posted == s.postRound * s.size + s.cqTail && s.tag == 1 - s.postRound % 2
    && s.doorbell == s.tail && s.sqHead == s.cqTail
    && (s.driver.Ready? ==> s.submitted == s.consumed && s.tail == s.head)
    && (s.driver.Waiting? ==> s.driver.left == 1 && s.submitted == s.consumed + 1 && s.tail == Wrap(s.head, s.size))
    && (s.posted == s.consumed ==> s.cqTail == s.head && s.postRound == s.headRound)
    && (s.posted == s.consumed + 1 ==> s.cqTail == Wrap(s.head, s.size))
    && (s.posted == s.consumed + 1 ==> s.postRound == if s.cqTail == 0 then s.headRound + 1 else s.headRound)
    && (forall j :: 0 <= j < s.size ==> EntryOk(s, j))
  }

  lemma InitialInv(n: nat)
    requires n >= 2
    ensures Inv(Initial(n))
  {
    var s := Initial(n);
    forall j | 0 <= j < n ensures EntryOk(s, j) {}
  }

  /** While the driver waits, the entry it polls is fresh exactly when the device
      has posted the completion of the command it waits for. */
  lemma PolledEntry(s: State)
    requires Inv(s)
    ensures Seen(s) <==> s.posted == s.consumed + 1
    ensures Seen(s) ==> s.cq[s.head].cmd == s.consumed
  {
    assert EntryOk(s, s.head);
  }

  lemma NextKeeps(s: State, step: Step)
    requires Inv(s)
    ensures Inv(Next(s, step))
  {
    PolledEntry(s);
    NextRound(s.postRound, s.size);
    NextRound(s.headRound, s.size);
    NextEntries(s, step);
  }

  lemma NextRound(r: nat, n: nat)
    ensures (r + 1) * n == r * n + n
  {}

  lemma NextEntries(s: State, step: Step)
    requires Inv(s)
    ensures forall j :: 0 <= j < s.size ==> EntryOk(Next(s, step), j)
  {
    forall j | 0 <= j < s.size ensures EntryOk(Next(s, step), j) { assert EntryOk(s, j); }
  }

  lemma {:induction false} RunKeeps(s: State, steps: seq<Step>)
    requires Inv(s)
    ensures Inv(Run(s, steps))
    decreases steps
  {
    if steps != [] {
      NextKeeps(s, steps[0]);
      RunKeeps(Next(s, steps[0]), steps[1..]);
    }
  }

  // ------------------------------------------------------------- the theorems

  /** For every ring size and every interleaving: a command starts with both indices
      equal, exactly one command is waited for, and the k-th wait ends only on the
      k-th completion, never on an entry left from an earlier pass. */
  lemma WaitsInStep(n: nat, steps: seq<Step>)
    requires n >= 2
    ensures var s := Run(Initial(n), steps);
      && (s.driver.Ready? ==> s.tail == s.head && s.posted == s.consumed == s.submitted)
      && (s.driver.Waiting? ==> s.driver.left == 1 && s.submitted == s.consumed + 1)
      && (s.driver.Waiting? ==> (Seen(s) <==> s.posted > s.consumed))
      && (Seen(s) ==> s.cq[s.head].cmd == s.consumed)
      && (s.driver.Ready? ==> !Seen(s))
  {
    InitialInv(n);
    RunKeeps(Initial(n), steps);
    PolledEntry(Run(Initial(n), steps));
  }

  /** The two sides never wait for each other: while the driver waits, either its
      poll succeeds and ends the call, or the device has a command to complete and
      its next post makes the poll succeed. */
  lemma NoDeadlock(n: nat, steps: seq<Step>)
    requires n >= 2
    ensures var s := Run(Initial(n), steps);
      s.driver.Waiting? ==>
        if Seen(s) then Next(s, Poll).driver == Ready && Next(s, Poll).consumed == s.consumed + 1
        else Pending(s) && Seen(Next(s, Post))
  {
    InitialInv(n);
    RunKeeps(Initial(n), steps);
    var s := Run(Initial(n), steps);
    PolledEntry(s);
    NextKeeps(s, Post);
    PolledEntry(Next(s, Post));
  }

  lemma Remainder(q: nat, n: nat, r: nat)
    requires r < n
    ensures (q * n + r) % n == r
  {
    var x := q * n + r;
    var d := x / n - q;
    assert d * n == r - x % n;
    Multiple(d, n);
  }

  lemma Multiple(d: int, n: nat)
    ensures (d >= 1 ==> d * n >= n) && (d <= -1 ==> d * n + n <= 0)
  {
  }

  /** The next index is the next count modulo the ring size. */
  lemma NextIndex(q: nat, n: nat, r: nat)
    requires r < n
    ensures (q * n + r) % n == r && (q * n + r + 1) % n == Wrap(r, n)
  {
    Remainder(q, n, r);
    if r + 1 < n {
      Remainder(q, n, r + 1);
    } else {
      NextRound(q, n);
      Remainder(q + 1, n, 0);
    }
  }

  /** A call that starts puts its command next in the ring, rings the doorbell for it and
      waits: the doorbell is the number of commands so far modulo the ring size. */
  lemma SubmitRings(n: nat, steps: seq<Step>)
    requires n >= 2
    ensures var s := Run(Initial(n), steps);
      s.driver == Ready ==>
        var s' := Next(s, Submit);
        && s.tail == s.submitted % n && s'.doorbell == s'.tail == s'.submitted % n
        && s'.submitted == s.submitted + 1 && s'.driver == Waiting(1) && Pending(s') && !Seen(s')
  {
    InitialInv(n);
    RunKeeps(Initial(n), steps);
    var s := Run(Initial(n), steps);
    if s.driver == Ready {
      NextKeeps(s, Submit);
      PolledEntry(Next(s, Submit));
      NextIndex(s.headRound, n, s.head);
    }
  }

  /** A command that is submitted, completed and polled for ends the call: the driver is
      ready again and each side has counted one more. */
  lemma CommandCompletes(n: nat, steps: seq<Step>)
    requires n >= 2
    ensures var s := Run(Initial(n), steps);
      s.driver == Ready ==>
        var s1 := Next(s, Submit);
        var s2 := Next(s1, Post);
        var s3 := Next(s2, Poll);
        && s2.head < |s2.cq| && s2.cq[s2.head].cmd == s.submitted && s3.driver == Ready
        && s3.submitted == s3.posted == s3.consumed == s.submitted + 1
  {
    InitialInv(n);
    RunKeeps(Initial(n), steps);
    var s := Run(Initial(n), steps);
    if s.driver == Ready {
      var s1 := Next(s, Submit);
      NextKeeps(s, Submit);
      NextKeeps(s1, Post);
      PolledEntry(Next(s1, Post));
    }
  }
}
