/** The spinlock of kernel/src/common/spinlock.c, for any number of CPUs and locks.

    Every access to a shared word (`locked`, `holding_cpu`) is one step, and the
    steps of different CPUs interleave freely.  What a CPU does to its own
    interrupt flag and nesting depth is joined to the neighbouring shared access,
    because no other CPU can see it.  Spinlocks are enabled throughout.

    `owner`, `held` and `clientIf` are history variables: who won the last
    test-and-set, which locks a CPU has, and the interrupt flag the CPU had before
    its outermost lock.  No step looks at them, except that a client running on
    CPU 0 must only unlock what it holds (HoldingExact says why). */
module Spinlock {
  import opened Prelude

  datatype Lock = Lock(locked: bool, holdingCpu: nat, owner: Option<nat>)

  /** Where a CPU is inside spinlock_lock (L...) or spinlock_unlock (U...).  The
      Saw states are inside this_cpu_holding_lock, after reading `locked`. */
  datatype Pc =
    | Idle
    | LCheck(l: nat) | LSaw(l: nat, saw: bool) | LSpin(l: nat) | LMark(l: nat)
    | UCheck(l: nat) | USaw(l: nat, saw: bool) | UClear(l: nat) | URelease(l: nat) | URestore
    | Panic(saves: nat)

  datatype Cpu = Cpu(pc: Pc, ifFlag: bool, depth: nat, wasEnabled: bool,
                     held: set<nat>, clientIf: bool)
  {
    /** save_and_disable_interrupts */
    function Save(): Cpu {
      this.(ifFlag := false, depth := depth + 1,
            wasEnabled := if depth == 0 then ifFlag else wasEnabled)
    }

    /** restore_interrupts; the depth is unsigned and never 0 here. */
    function Restore(): Cpu {
      if depth == 0 then this
      else this.(depth := depth - 1, ifFlag := if depth == 1 && wasEnabled then true else ifFlag)
    }
  }

  datatype State = State(locks: map<nat, Lock>, cpus: map<nat, Cpu>)

  /** Clients call Lock, Unlock or change their interrupt flag outside all locks;
      Go lets CPU c take the next step of the call it is in. */
  datatype Step = CallLock(c: nat, l: nat) | CallUnlock(c: nat, l: nat) | SetIf(c: nat, on: bool) | Go(c: nat)

  function Goto(s: State, c: nat, cpu: Cpu, pc: Pc): State {
    s.(cpus := s.cpus[c := cpu.(pc := pc)])
  }

  /** The step of CPU c whose call has reached pc. */
  function Advance(s: State, c: nat): (s': State)
    requires c in s.cpus
  {
    var p := s.cpus[c];
    match p.pc
    case Idle => s
    case Panic(_) => s
    case URestore => Goto(s, c, p.Restore(), Idle)
    case LCheck(l) => if l !in s.locks then s else Goto(s, c, p.Save(), LSaw(l, s.locks[l].locked))
    case LSaw(l, saw) =>
      if l !in s.locks then s
      else if saw && s.locks[l].holdingCpu == c then Goto(s, c, p.Restore(), Panic(1))
      else Goto(s, c, p.Restore(), LSpin(l))
    case LSpin(l) =>
      if l !in s.locks || s.locks[l].locked then s
      else Goto(s, c, p.(held := p.held + {l}), LMark(l))
           .(locks := s.locks[l := s.locks[l].(locked := true, owner := Some(c))])
    case LMark(l) =>
      if l !in s.locks then s
      else Goto(s, c, p, Idle).(locks := s.locks[l := s.locks[l].(holdingCpu := c)])
    case UCheck(l) => if l !in s.locks then s else Goto(s, c, p.Save(), USaw(l, s.locks[l].locked))
    case USaw(l, saw) =>
      if l !in s.locks then s
      else if saw && s.locks[l].holdingCpu == c then Goto(s, c, p.Restore(), UClear(l))
      else Goto(s, c, p.Restore(), Panic(0))
    case UClear(l) =>
      if l !in s.locks then s
      else Goto(s, c, p, URelease(l)).(locks := s.locks[l := s.locks[l].(holdingCpu := 0)])
    case URelease(l) =>
      if l !in s.locks then s
      else Goto(s, c, p.(held := p.held - {l}), URestore)
           .(locks := s.locks[l := s.locks[l].(locked := false, owner := None)])
  }

  function Next(s: State, step: Step): (s': State) {
    if step.c !in s.cpus then s else
    var p := s.cpus[step.c];
    match step
    case CallLock(c, l) => if p.pc.Idle? && l in s.locks then Goto(s, c, p.Save(), LCheck(l)) else s
    case CallUnlock(c, l) =>
      if p.pc.Idle? && l in s.locks && (c == 0 ==> l in p.held) then Goto(s, c, p, UCheck(l)) else s
    case SetIf(c, on) =>
      if p.pc.Idle? && p.depth == 0 then s.(cpus := s.cpus[c := p.(ifFlag := on, clientIf := on)]) else s
    case Go(c) => Advance(s, c)
  }

  function Run(s: State, steps: seq<Step>): State
    decreases steps
  {
    if steps == [] then s else Run(Next(s, steps[0]), steps[1..])
  }

  ghost predicate Init(s: State) {
    && (forall l :: l in s.locks ==> s.locks[l] == Lock(false, 0, None))
    && (forall c :: c in s.cpus ==>
          var p := s.cpus[c];
          p.pc.Idle? && p.depth == 0 && p.held == {} && p.clientIf == p.ifFlag)
  }

  // ------------------------------------------------------------- the invariant

  /** Saves of this CPU not matched by a lock it holds. */
  function Extra(pc: Pc): nat {
    match pc
    case LCheck(_) => 1
    case LSaw(_, _) => 2
    case LSpin(_) => 1
    case USaw(_, _) => 1
    case URestore => 1
    case Panic(n) => n
    case _ => 0
  }

  ghost predicate CpuOk(s: State, c: nat)
    requires c in s.cpus
  {
    var p := s.cpus[c];
    && p.depth == |p.held| + Extra(p.pc)
    && (if p.depth > 0 then !p.ifFlag && p.wasEnabled == p.clientIf else p.ifFlag == p.clientIf)
    && (forall l :: l in p.held ==> l in s.locks && s.locks[l].owner == Some(c))
    && (p.pc.LMark? || p.pc.UClear? || p.pc.URelease? ==> p.pc.l in p.held)
    && (p.pc.LSaw? || p.pc.USaw? ==> p.pc.l in s.locks && (p.pc.l in p.held ==> p.pc.saw))
    && ((p.pc.UCheck? || p.pc.USaw?) && c == 0 ==> p.pc.l in p.held)
    && (p.pc.LSpin? ==> p.pc.l !in p.held)  // never waits for itself
  }

  /** holding_cpu is the owner, except between the two writes of lock or unlock. */
  ghost predicate LockOk(s: State, l: nat)
    requires l in s.locks
  {
    var k := s.locks[l];
    match k.owner
    case None => !k.locked && k.holdingCpu == 0
    case Some(c) =>
      && k.locked && c in s.cpus && l in s.cpus[c].held
      && k.holdingCpu == if s.cpus[c].pc == LMark(l) || s.cpus[c].pc == URelease(l) then 0 else c
  }

  ghost predicate Inv(s: State) {
    && (forall c :: c in s.cpus ==> CpuOk(s, c))
    && (forall l :: l in s.locks ==> LockOk(s, l))
  }

  /** A step inside spinlock_lock as seen from its own CPU: the deadlock check, ... */
  lemma AdvanceChecking(s: State, c: nat)
    requires Inv(s) && c in s.cpus && (s.cpus[c].pc.LCheck? || s.cpus[c].pc.LSaw?)
    ensures CpuOk(Advance(s, c), c)
  {
    assert CpuOk(s, c);
    if s.cpus[c].pc.l in s.locks { assert LockOk(s, s.cpus[c].pc.l); }
  }

  /** ... and taking the lock. */
  lemma AdvanceLocking(s: State, c: nat)
    requires Inv(s) && c in s.cpus && (s.cpus[c].pc.LSpin? || s.cpus[c].pc.LMark?)
    ensures CpuOk(Advance(s, c), c)
  {
    var p := s.cpus[c];
    assert CpuOk(s, c);
    if p.pc.l in s.locks { assert LockOk(s, p.pc.l); }
    if p.pc.LSpin? { assert |p.held + {p.pc.l}| == |p.held| + 1; }
  }

  /** A step inside spinlock_unlock as seen from its own CPU. */
  lemma AdvanceUnlocking(s: State, c: nat)
    requires Inv(s) && c in s.cpus
    requires var pc := s.cpus[c].pc; pc.UCheck? || pc.USaw? || pc.UClear?
    ensures CpuOk(Advance(s, c), c)
  {
    assert CpuOk(s, c);
    if s.cpus[c].pc.l in s.locks { assert LockOk(s, s.cpus[c].pc.l); }
  }

  /** Its last steps. */
  lemma AdvanceReleased(s: State, c: nat)
    requires Inv(s) && c in s.cpus
    requires var pc := s.cpus[c].pc; pc.Idle? || pc.URelease? || pc.URestore? || pc.Panic?
    ensures CpuOk(Advance(s, c), c)
  {
    var p := s.cpus[c];
    assert CpuOk(s, c);
    if p.pc.URelease? {
      if p.pc.l in s.locks { assert LockOk(s, p.pc.l); }
      assert |p.held - {p.pc.l}| == |p.held| - 1;
    }
  }

  /** The step of CPU c as seen from another CPU d: what d holds, c cannot take. */
  lemma AdvanceOther(s: State, c: nat, d: nat)
    requires Inv(s) && c in s.cpus && d in s.cpus && d != c
    ensures CpuOk(Advance(s, c), d)
  {
    var s' := Advance(s, c);
    assert CpuOk(s, c) && CpuOk(s, d);
    assert s'.cpus[d] == s.cpus[d] && s'.locks.Keys == s.locks.Keys;
    forall l | l in s.cpus[d].held ensures s'.locks[l].owner == Some(d) { assert LockOk(s, l); }
  }

  /** A step that writes to no lock keeps what is said about the locks. */
  lemma QuietLock(s: State, c: nat, l: nat)
    requires Inv(s) && c in s.cpus && l in s.locks
    requires var pc := s.cpus[c].pc; !pc.LSpin? && !pc.LMark? && !pc.UClear? && !pc.URelease?
    ensures LockOk(Advance(s, c), l)
  {
    assert CpuOk(s, c) && LockOk(s, l);
  }

  lemma AdvanceLock(s: State, c: nat, l: nat)
    requires Inv(s) && c in s.cpus && l in s.locks
    ensures LockOk(Advance(s, c), l)
  {
    var p := s.cpus[c];
    if !p.pc.LSpin? && !p.pc.LMark? && !p.pc.UClear? && !p.pc.URelease? {
      QuietLock(s, c, l);
    } else {
      assert CpuOk(s, c) && LockOk(s, l);
      if p.pc.l in s.locks { assert LockOk(s, p.pc.l); }
    }
  }

  lemma NextCpu(s: State, step: Step, d: nat)
    requires Inv(s) && d in s.cpus
    ensures CpuOk(Next(s, step), d)
  {
    assert CpuOk(s, d);
    if step.Go? && step.c in s.cpus {
      var pc := s.cpus[d].pc;
      if d != step.c {
        AdvanceOther(s, step.c, d);
      } else if pc.LCheck? || pc.LSaw? {
        AdvanceChecking(s, d);
      } else if pc.LSpin? || pc.LMark? {
        AdvanceLocking(s, d);
      } else if pc.UCheck? || pc.USaw? || pc.UClear? {
        AdvanceUnlocking(s, d);
      } else {
        AdvanceReleased(s, d);
      }
    }
  }

  lemma NextKeeps(s: State, step: Step)
    requires Inv(s)
    ensures Inv(Next(s, step))
  {
    var s' := Next(s, step);
    forall d | d in s'.cpus ensures CpuOk(s', d) { NextCpu(s, step, d); }
    forall l | l in s'.locks ensures LockOk(s', l) {
      assert LockOk(s, l);
      if step.Go? && step.c in s.cpus { AdvanceLock(s, step.c, l); }
    }
  }

  lemma {:induction false} RunKeeps(s: State, steps: seq<Step>)
    requires Inv(s)
    ensures Inv(Run(s, steps))
    decreases steps
  {
    if steps != [] {
      NextKeeps(s, steps[0]);
      RunKeeps(Next(s, steps[0]), steps[1..]);
    }
  }

  // ------------------------------------------------------------- the theorems

  ghost predicate Reachable(s: State) {
    exists s0: State, steps: seq<Step> :: Init(s0) && s == Run(s0, steps)
  }

  lemma ReachableInv(s: State)
    requires Reachable(s)
    ensures Inv(s)
  {
    var s0: State, steps: seq<Step> :| Init(s0) && s == Run(s0, steps);
    RunKeeps(s0, steps);
  }

  /** At most one CPU holds a lock, and a lock is taken exactly when someone holds it. */
  lemma MutualExclusion(s: State, l: nat)
    requires Reachable(s) && l in s.locks
    ensures forall c, d :: c in s.cpus && d in s.cpus && l in s.cpus[c].held && l in s.cpus[d].held ==> c == d
    ensures s.locks[l].locked <==> exists c :: c in s.cpus && l in s.cpus[c].held
  {
    ReachableInv(s);
    assert LockOk(s, l);
    forall c | c in s.cpus && l in s.cpus[c].held ensures s.locks[l].owner == Some(c) { assert CpuOk(s, c); }
  }

  /** Interrupts are off inside locks and as the client left them outside; between
      calls the depth is the number of locks held, in whatever order they go. */
  lemma InterruptsRestored(s: State, c: nat)
    requires Reachable(s) && c in s.cpus
    ensures s.cpus[c].depth > 0 ==> !s.cpus[c].ifFlag
    ensures s.cpus[c].depth == 0 ==> s.cpus[c].ifFlag == s.cpus[c].clientIf
    ensures s.cpus[c].pc.Idle? ==> s.cpus[c].depth == |s.cpus[c].held|
    ensures s.cpus[c].held != {} ==> s.cpus[c].depth > 0
  {
    ReachableInv(s);
    assert CpuOk(s, c);
  }

  /** this_cpu_holding_lock is exact on every CPU but CPU 0.  On CPU 0 it also says
      yes while another CPU is between the two writes of lock or unlock, or has
      released the lock since `locked` was read. */
  lemma HoldingExact(s: State, c: nat)
    requires Reachable(s) && c in s.cpus && (s.cpus[c].pc.LSaw? || s.cpus[c].pc.USaw?)
    ensures var l := s.cpus[c].pc.l;
      && l in s.locks
      && var answer := s.cpus[c].pc.saw && s.locks[l].holdingCpu == c;
      && (c != 0 ==> (answer <==> l in s.cpus[c].held))
      && (c == 0 ==> (answer <==> l in s.cpus[c].held || (s.cpus[c].pc.saw && Window(s, l))))
  {
    ReachableInv(s);
    var l := s.cpus[c].pc.l;
    assert CpuOk(s, c) && LockOk(s, l);
    if s.locks[l].owner.Some? { assert CpuOk(s, s.locks[l].owner.value); }
  }

  /** The lock shows the released marker although CPU 0 does not hold it. */
  ghost predicate Window(s: State, l: nat) {
    l in s.locks &&
    match s.locks[l].owner
    case None => true
    case Some(d) => d != 0 && d in s.cpus && (s.cpus[d].pc == LMark(l) || s.cpus[d].pc == URelease(l))
  }

  /** Where a CPU goes on from the test: the holder unlocks and everybody else may wait for
      the lock; a holder that locks again panics, and so does a CPU other than 0 that
      unlocks what it does not hold. */
  lemma HolderGoesOn(s: State, c: nat)
    requires Reachable(s) && c in s.cpus && (s.cpus[c].pc.LSaw? || s.cpus[c].pc.USaw?)
    ensures var l, pc', mine := s.cpus[c].pc.l, Advance(s, c).cpus[c].pc, s.cpus[c].pc.l in s.cpus[c].held;
      && (s.cpus[c].pc.USaw? && mine ==> pc' == UClear(l))
      && (s.cpus[c].pc.LSaw? && mine ==> pc'.Panic?)
      && (s.cpus[c].pc.USaw? && !mine && c != 0 ==> pc'.Panic?)
      && (s.cpus[c].pc.LSaw? && !mine && c != 0 ==> pc' == LSpin(l))
  {
    HoldingExact(s, c);
  }

  // ---- a call that is not disturbed

  function Alone(s: State, c: nat, n: nat): (s': State)
    decreases n
  {
    if n == 0 then s else Alone(Next(s, Go(c)), c, n - 1)
  }

  lemma {:induction false} AloneJoin(s: State, c: nat, n: nat, m: nat)
    ensures Alone(Alone(s, c, n), c, m) == Alone(s, c, n + m)
    decreases n
  {
    if n > 0 { AloneJoin(Next(s, Go(c)), c, n - 1, m); }
  }

  /** Some number of steps of CPU c lead from s to s'. */
  ghost predicate Leads(s: State, s': State, c: nat) {
    exists n: nat :: Alone(s, c, n) == s'
  }

  lemma LeadsOne(s: State, s': State, c: nat)
    requires c in s.cpus && Advance(s, c) == s'
    ensures Leads(s, s', c)
  {
    assert Alone(s, c, 1) == Alone(Next(s, Go(c)), c, 0);
  }

  lemma LeadsJoin(s: State, s1: State, s': State, c: nat)
    requires Leads(s, s1, c) && Leads(s1, s', c)
    ensures Leads(s, s', c)
  {
    var n: nat :| Alone(s, c, n) == s1;
    var m: nat :| Alone(s1, c, m) == s';
    AloneJoin(s, c, n, m);
  }

  /** CPU c becomes p and lock l becomes k. */
  function With(s: State, c: nat, p: Cpu, l: nat, k: Lock): State {
    State(s.locks[l := k], s.cpus[c := p])
  }

  lemma WithStep(s: State, c: nat, p: Cpu, l: nat, k: Lock, p': Cpu, k': Lock)
    requires c in s.cpus && l in s.locks
    requires Advance(With(s, c, p, l, k), c) == With(With(s, c, p, l, k), c, p', l, k')
    ensures Leads(With(s, c, p, l, k), With(s, c, p', l, k'), c)
  {
    assert With(With(s, c, p, l, k), c, p', l, k') == With(s, c, p', l, k');
    LeadsOne(With(s, c, p, l, k), With(s, c, p', l, k'), c);
  }

  /** The check of spinlock_lock when the lock is free. */
  lemma ChecksFree(s: State, c: nat, p: Cpu, l: nat, k: Lock)
    requires c in s.cpus && l in s.locks && !k.locked && p.depth > 0
    ensures Leads(With(s, c, p.(pc := LCheck(l)), l, k), With(s, c, p.(ifFlag := false, pc := LSpin(l)), l, k), c)
  {
    var p1 := p.Save().(pc := LSaw(l, false));
    WithStep(s, c, p.(pc := LCheck(l)), l, k, p1, k);
    WithStep(s, c, p1, l, k, p.(ifFlag := false, pc := LSpin(l)), k);
    LeadsJoin(With(s, c, p.(pc := LCheck(l)), l, k), With(s, c, p1, l, k),
              With(s, c, p.(ifFlag := false, pc := LSpin(l)), l, k), c);
  }

  lemma TakesFree(s: State, c: nat, p: Cpu, l: nat, k: Lock)
    requires c in s.cpus && l in s.locks && !k.locked
    ensures Leads(With(s, c, p.(pc := LSpin(l)), l, k),
                  With(s, c, p.(pc := Idle, held := p.held + {l}), l, Lock(true, c, Some(c))), c)
  {
    var p0, p1 := p.(pc := LSpin(l)), p.(pc := LMark(l), held := p.held + {l});
    var p2 := p.(pc := Idle, held := p.held + {l});
    var k1 := k.(locked := true, owner := Some(c));
    WithStep(s, c, p0, l, k, p1, k1);
    WithStep(s, c, p1, l, k1, p2, Lock(true, c, Some(c)));
    LeadsJoin(With(s, c, p0, l, k), With(s, c, p1, l, k1), With(s, c, p2, l, Lock(true, c, Some(c))), c);
  }

  /** A CPU that locks a free lock while no other CPU moves comes back with it, whatever
      its number, with interrupts off and one level deeper. */
  lemma LockAlone(s: State, c: nat, l: nat)
    requires c in s.cpus && s.cpus[c].pc.Idle? && l in s.locks && !s.locks[l].locked
    ensures var p := s.cpus[c];
      Leads(Next(s, CallLock(c, l)),
            With(s, c, p.(ifFlag := false, depth := p.depth + 1, held := p.held + {l},
                          wasEnabled := if p.depth == 0 then p.ifFlag else p.wasEnabled), l, Lock(true, c, Some(c))), c)
  {
    var p, k := s.cpus[c].Save(), s.locks[l];
    assert Next(s, CallLock(c, l)) == With(s, c, p.(pc := LCheck(l)), l, k) by { assert s.locks[l := k] == s.locks; }
    ChecksFree(s, c, p, l, k);
    TakesFree(s, c, p, l, k);
    LeadsJoin(With(s, c, p.(pc := LCheck(l)), l, k), With(s, c, p.(pc := LSpin(l)), l, k),
              With(s, c, p.(pc := Idle, held := p.held + {l}), l, Lock(true, c, Some(c))), c);
  }

  /** The check of spinlock_unlock by the holder. */
  lemma ChecksMine(s: State, c: nat, p: Cpu, l: nat, k: Lock)
    requires c in s.cpus && l in s.locks && k.locked && k.holdingCpu == c && p.depth > 0 && !p.ifFlag
    ensures Leads(With(s, c, p.(pc := UCheck(l)), l, k), With(s, c, p.(pc := UClear(l)), l, k), c)
  {
    var p1 := p.Save().(pc := USaw(l, true));
    WithStep(s, c, p.(pc := UCheck(l)), l, k, p1, k);
    WithStep(s, c, p1, l, k, p.(pc := UClear(l)), k);
    LeadsJoin(With(s, c, p.(pc := UCheck(l)), l, k), With(s, c, p1, l, k), With(s, c, p.(pc := UClear(l)), l, k), c);
  }

  lemma Releases(s: State, c: nat, p: Cpu, l: nat, k: Lock)
    requires c in s.cpus && l in s.locks && p.depth > 0
    ensures Leads(With(s, c, p.(pc := UClear(l)), l, k),
                  With(s, c, p.Restore().(pc := Idle, held := p.held - {l}), l, Lock(false, 0, None)), c)
  {
    var p0, p1, p2 := p.(pc := UClear(l)), p.(pc := URelease(l)), p.(pc := URestore, held := p.held - {l});
    var p3 := p.Restore().(pc := Idle, held := p.held - {l});
    var k1, k2 := k.(holdingCpu := 0), Lock(false, 0, None);
    WithStep(s, c, p0, l, k, p1, k1);
    WithStep(s, c, p1, l, k1, p2, k2);
    WithStep(s, c, p2, l, k2, p3, k2);
    LeadsJoin(With(s, c, p0, l, k), With(s, c, p1, l, k1), With(s, c, p2, l, k2), c);
    LeadsJoin(With(s, c, p0, l, k), With(s, c, p2, l, k2), With(s, c, p3, l, k2), c);
  }

  /** A CPU that unlocks a lock it holds while no other CPU moves comes back without it,
      and with it the last one its interrupts are as they were before the first. */
  lemma UnlockAlone(s: State, c: nat, l: nat)
    requires Reachable(s) && c in s.cpus && s.cpus[c].pc.Idle? && l in s.cpus[c].held
    ensures var p := s.cpus[c];
      && l in s.locks && p.depth == |p.held| > 0
      && Leads(Next(s, CallUnlock(c, l)),
               With(s, c, p.(depth := p.depth - 1, held := p.held - {l},
                             ifFlag := if p.depth == 1 then p.clientIf else false), l, Lock(false, 0, None)), c)
  {
    ReachableInv(s);
    var p := s.cpus[c];
    InterruptsRestored(s, c);
    assert CpuOk(s, c) && LockOk(s, l);
    var k := s.locks[l];
    assert Next(s, CallUnlock(c, l)) == With(s, c, p.(pc := UCheck(l)), l, k) by { assert s.locks[l := k] == s.locks; }
    ChecksMine(s, c, p, l, k);
    Releases(s, c, p, l, k);
    LeadsJoin(With(s, c, p.(pc := UCheck(l)), l, k), With(s, c, p.(pc := UClear(l)), l, k),
              With(s, c, p.Restore().(pc := Idle, held := p.held - {l}), l, Lock(false, 0, None)), c);
  }

  lemma {:induction false} RunBoth(s: State, a: seq<Step>, b: seq<Step>)
    ensures Run(s, a + b) == Run(Run(s, a), b)
    decreases a
  {
    if a == [] {
      assert a + b == b;
    } else {
      assert (a + b)[0] == a[0] && (a + b)[1..] == a[1..] + b;
      RunBoth(Next(s, a[0]), a[1..], b);
    }
  }

  const IDLE := Cpu(Idle, true, 0, false, {}, true)

  const START := State(map[7 := Lock(false, 0, None)], map[0 := IDLE, 1 := IDLE])

  /** CPU 1 takes lock 7 and has not yet written its id into it. */
  lemma CpuOneWins()
    ensures var s := Run(START, [CallLock(1, 7), Go(1), Go(1), Go(1)]);
      s.cpus.Keys == {0, 1} && s.cpus[0] == IDLE && s.locks == map[7 := Lock(true, 0, Some(1))]
  {
    var s1 := Next(START, CallLock(1, 7));
    var s2 := Next(s1, Go(1));
    var s3 := Next(s2, Go(1));
    var s4 := Next(s3, Go(1));
    calc {
      Run(START, [CallLock(1, 7), Go(1), Go(1), Go(1)]);
      Run(s1, [Go(1), Go(1), Go(1)]);
      Run(s2, [Go(1), Go(1)]);
      Run(s3, [Go(1)]);
      Run(s4, []);
    }
  }

  /** CPU 0 asks for it and panics. */
  lemma CpuZeroPanics(s: State)
    requires s.cpus.Keys == {0, 1} && s.cpus[0] == IDLE && s.locks == map[7 := Lock(true, 0, Some(1))]
    ensures var s' := Run(s, [CallLock(0, 7), Go(0), Go(0)]);
      0 in s'.cpus && s'.cpus[0].pc.Panic? && s'.cpus[0].held == {}
  {
    var s5 := Next(s, CallLock(0, 7));
    var s6 := Next(s5, Go(0));
    var s7 := Next(s6, Go(0));
    calc {
      Run(s, [CallLock(0, 7), Go(0), Go(0)]);
      Run(s5, [Go(0), Go(0)]);
      Run(s6, [Go(0)]);
      Run(s7, []);
    }
  }

  /** CPU 1 has just won the lock; CPU 0 asks for it and panics with "deadlock",
      although it holds nothing. */
  lemma CpuZeroFalseDeadlock()
    ensures var s := Run(START, [CallLock(1, 7), Go(1), Go(1), Go(1)] + [CallLock(0, 7), Go(0), Go(0)]);
      Init(START) && 0 in s.cpus && s.cpus[0].pc.Panic? && s.cpus[0].held == {}
  {
    RunBoth(START, [CallLock(1, 7), Go(1), Go(1), Go(1)], [CallLock(0, 7), Go(0), Go(0)]);
    CpuOneWins();
    CpuZeroPanics(Run(START, [CallLock(1, 7), Go(1), Go(1), Go(1)]));
  }
}
