/** The reference-counted inode table of kernel/src/fs/fs.c: fs_open, fs_dup and
    fs_close on any number of threads.

    A step is one lock operation, one test or one group of writes made under the
    same locks; steps of different threads interleave freely.  fs_open holds the
    list lock and takes the lock of each slot it looks at, fs_close takes only the
    lock of its slot, and fs_dup takes none.  The dnode and its kind, which fs_open
    gets from the file system, are parameters of the call.

    Each open or dup hands out a handle with a fresh number; `handles` holds those
    whose reference has not been given back, and `closer` says which thread is
    closing one.  The code has no such numbers: they are history. */
module InodeTable {
  import opened Prelude

  const MAX_INODES: nat := 64

  datatype Kind = Empty | File | Directory

  datatype Slot = Slot(kind: Kind, dnode: nat, refs: int, lock: Option<nat>)

  datatype Handle = Handle(slot: nat, dnode: nat)

  datatype Pc =
    | Idle
    // fs_open of dnode d, of kind k; f is the free slot noted so far
    | OWant(d: nat, k: Kind)
    | OScan(d: nat, k: Kind, i: nat, f: Option<nat>)   // about to lock slot i, or past the end
    | OAt(d: nat, k: Kind, i: nat, f: Option<nat>)     // slot i is locked
    | OSkip(d: nat, k: Kind, i: nat, f: Option<nat>)   // slot i was not the one, still locked
    | OHit(i: nat, id: nat)                            // reference taken, slot i still locked
    | OFill(d: nat, k: Kind, s: nat)                   // not found: slot s will be used
    | OType(d: nat, k: Kind, s: nat)                   // dnode and count are set, type is not
    | ODone(result: Option<nat>)
    // fs_close of handle id, then of slot i
    | CWant(id: nat)
    | CAt(id: nat)
    | CZero(i: nat)    // the count fell to 0
    | CWipe(i: nat)    // the type is cleared, the rest is not
    | CUnlock(i: nat)

  datatype State = State(slots: seq<Slot>, listLock: Option<nat>, threads: map<nat, Pc>,
                         handles: map<nat, Handle>, closer: map<nat, nat>, nextId: nat)

  datatype Step = CallOpen(t: nat, d: nat, k: Kind) | CallDup(t: nat, id: nat) | CallClose(t: nat, id: nat) | Go(t: nat)

  function Goto(s: State, t: nat, pc: Pc): State {
    s.(threads := s.threads[t := pc])
  }

  function SetSlot(s: State, i: nat, x: Slot): State
    requires i < |s.slots|
  {
    s.(slots := s.slots[i := x])
  }

  /** Hand out a new handle on slot i. */
  function Issue(s: State, i: nat, d: nat): State {
    s.(handles := s.handles[s.nextId := Handle(i, d)], nextId := s.nextId + 1)
  }

  predicate Usable(s: State, id: nat) {
    id in s.handles && id !in s.closer && s.handles[id].slot < |s.slots|
  }

  /** Slot i is in range; every use below keeps it so. */
  function At(s: State, i: nat): (x: Slot) {
    if i < |s.slots| then s.slots[i] else Slot(Empty, 0, 0, None)
  }

  function Advance(s: State, t: nat): (s': State)
    requires t in s.threads
    ensures |s'.slots| == |s.slots| && s'.threads.Keys == s.threads.Keys
  {
    match s.threads[t]
    case Idle => s
    case OWant(d, k) =>
      if s.listLock.Some? then s else Goto(s, t, OScan(d, k, 0, None)).(listLock := Some(t))
    case OScan(d, k, i, f) =>
      if i >= |s.slots| then
        Goto(s, t, if f.Some? then OFill(d, k, f.value) else ODone(None))
      else if s.slots[i].lock.Some? then s
      else SetSlot(Goto(s, t, OAt(d, k, i, f)), i, s.slots[i].(lock := Some(t)))
    case OAt(d, k, i, f) =>
      if i >= |s.slots| then s
      else if s.slots[i].kind.Empty? then Goto(s, t, OSkip(d, k, i, Some(i)))
      else if s.slots[i].dnode == d then
        Issue(SetSlot(Goto(s, t, OHit(i, s.nextId)), i, s.slots[i].(refs := s.slots[i].refs + 1)), i, d)
      else Goto(s, t, OSkip(d, k, i, f))
    case OSkip(d, k, i, f) =>
      if i >= |s.slots| then s
      else SetSlot(Goto(s, t, OScan(d, k, i + 1, f)), i, s.slots[i].(lock := None))
    case OHit(i, id) =>
      if i >= |s.slots| then s
      else SetSlot(Goto(s, t, ODone(Some(id))), i, s.slots[i].(lock := None))
    case OFill(d, k, f) =>
      if f >= |s.slots| then s
      else SetSlot(Goto(s, t, OType(d, k, f)), f, s.slots[f].(dnode := d, refs := 1))
    case OType(d, k, f) =>
      if f >= |s.slots| then s
      else Issue(SetSlot(Goto(s, t, ODone(Some(s.nextId))), f, s.slots[f].(kind := k)), f, d)
    case ODone(_) => Goto(s, t, Idle).(listLock := None)
    case CWant(id) =>
      if id !in s.handles || s.handles[id].slot >= |s.slots| then s else
      var i := s.handles[id].slot;
      if s.slots[i].lock.Some? then s
      else SetSlot(Goto(s, t, CAt(id)), i, s.slots[i].(lock := Some(t)))
    case CAt(id) =>
      if id !in s.handles || s.handles[id].slot >= |s.slots| then s else
      var i := s.handles[id].slot;
      var refs := s.slots[i].refs - 1;
      SetSlot(Goto(s, t, if refs == 0 then CZero(i) else CUnlock(i)), i, s.slots[i].(refs := refs))
        .(handles := s.handles - {id}, closer := s.closer - {id})
    case CZero(i) =>
      if i >= |s.slots| then s
      else SetSlot(Goto(s, t, CWipe(i)), i, s.slots[i].(kind := Empty))
    case CWipe(i) =>
      if i >= |s.slots| then s
      else SetSlot(Goto(s, t, CUnlock(i)), i, s.slots[i].(dnode := 0))
    case CUnlock(i) =>
      if i >= |s.slots| then s
      else SetSlot(Goto(s, t, Idle), i, s.slots[i].(lock := None))
  }

  function Next(s: State, step: Step): (s': State)
    ensures |s'.slots| == |s.slots| && s'.threads.Keys == s.threads.Keys
  {
    if step.t !in s.threads then s else
    match step
    case CallOpen(t, d, k) =>
      if s.threads[t].Idle? && !k.Empty? then Goto(s, t, OWant(d, k)) else s
    case CallDup(t, id) =>
      if !s.threads[t].Idle? || !Usable(s, id) then s else
      var h := s.handles[id];
      Issue(SetSlot(s, h.slot, s.slots[h.slot].(refs := s.slots[h.slot].refs + 1)), h.slot, h.dnode)
    case CallClose(t, id) =>
      if s.threads[t].Idle? && Usable(s, id) then Goto(s, t, CWant(id)).(closer := s.closer[id := t]) else s
    case Go(t) => Advance(s, t)
  }

  function Run(s: State, steps: seq<Step>): State
    decreases steps
  {
    if steps == [] then s else Run(Next(s, steps[0]), steps[1..])
  }

  ghost predicate Init(s: State) {
    && |s.slots| == MAX_INODES && (forall i :: 0 <= i < |s.slots| ==> s.slots[i] == Slot(Empty, 0, 0, None))
    && s.listLock == None && (forall t :: t in s.threads ==> s.threads[t].Idle?)
    && s.handles == map[] && s.closer == map[]
  }

  // ------------------------------------------------------------- the invariant

  /** The outstanding handles on slot i. */
  function Ids(s: State, i: nat): (r: set<nat>) {
    set id | id in s.handles && s.handles[id].slot == i
  }

  predicate HoldsList(pc: Pc) {
    pc.OScan? || pc.OAt? || pc.OSkip? || pc.OHit? || pc.OFill? || pc.OType? || pc.ODone?
  }

  /** The slot whose lock a thread at pc has. */
  function LockedBy(s: State, pc: Pc): Option<nat> {
    match pc
    case OAt(_, _, i, _) => Some(i)
    case OSkip(_, _, i, _) => Some(i)
    case OHit(i, _) => Some(i)
    case CAt(id) => if id in s.handles then Some(s.handles[id].slot) else None
    case CZero(i) => Some(i)
    case CWipe(i) => Some(i)
    case CUnlock(i) => Some(i)
    case _ => None
  }

  /** Some thread has locked slot i and is at pc. */
  predicate LockerAt(s: State, i: nat, pc: Pc) {
    At(s, i).lock.Some? && At(s, i).lock.value in s.threads && s.threads[At(s, i).lock.value] == pc
  }

  /** Slot i is free for the thread that scans: nobody refers to it or cleans it up. */
  predicate Vacant(s: State, i: nat) {
    i < |s.slots| && s.slots[i].kind.Empty? && s.slots[i].refs == 0 && !LockerAt(s, i, CWipe(i))
  }

  /** No slot below n is in use for dnode d. */
  ghost predicate Passed(s: State, d: nat, n: nat) {
    forall j :: 0 <= j < n && j < |s.slots| && !s.slots[j].kind.Empty? ==> s.slots[j].dnode != d
  }

  ghost predicate ScanOk(s: State, d: nat, k: Kind, n: nat, f: Option<nat>) {
    !k.Empty? && Passed(s, d, n) && (f.Some? ==> Vacant(s, f.value))
  }

  ghost predicate ThreadOk(s: State, t: nat)
    requires t in s.threads
  {
    var pc := s.threads[t];
    && (HoldsList(pc) ==> s.listLock == Some(t))
    && (LockedBy(s, pc).Some? ==> LockedBy(s, pc).value < |s.slots| && s.slots[LockedBy(s, pc).value].lock == Some(t))
    && match pc
       case OWant(d, k) => !k.Empty?
       case OScan(d, k, i, f) => i <= |s.slots| && ScanOk(s, d, k, i, f)
       case OAt(d, k, i, f) => ScanOk(s, d, k, i, f)
       case OSkip(d, k, i, f) => ScanOk(s, d, k, i + 1, f)
       case OFill(d, k, f) => ScanOk(s, d, k, |s.slots|, Some(f))
       case OType(d, k, f) =>
         !k.Empty? && Passed(s, d, |s.slots|) && f < |s.slots| && s.slots[f].kind.Empty? &&
         s.slots[f].dnode == d && s.slots[f].refs == 1 && !LockerAt(s, f, CWipe(f))
       case CWant(id) => id in s.handles && id in s.closer && s.closer[id] == t
       case CAt(id) => id in s.handles && id in s.closer && s.closer[id] == t
       case CZero(i) => i < |s.slots| && !s.slots[i].kind.Empty? && s.slots[i].refs == 0
       case CWipe(i) => i < |s.slots| && s.slots[i].kind.Empty? && s.slots[i].refs == 0
       case _ => true
  }

  /** The thread with the list lock has written all of slot i but its type. */
  predicate Filling(s: State, i: nat) {
    s.listLock.Some? && s.listLock.value in s.threads &&
    s.threads[s.listLock.value].OType? && s.threads[s.listLock.value].s == i
  }

  ghost predicate SlotOk(s: State, i: nat)
    requires i < |s.slots|
  {
    var x := s.slots[i];
    if x.kind.Empty? then Ids(s, i) == {} && (x.refs != 0 ==> Filling(s, i))
    else x.refs == |Ids(s, i)| && (x.refs == 0 ==> LockerAt(s, i, CZero(i)))
  }

  ghost predicate HandleOk(s: State, id: nat)
    requires id in s.handles
  {
    var h := s.handles[id];
    && id < s.nextId && h.slot < |s.slots|
    && !s.slots[h.slot].kind.Empty? && s.slots[h.slot].dnode == h.dnode
  }

  ghost predicate Unique(s: State) {
    forall i, j :: 0 <= i < j < |s.slots| && !s.slots[i].kind.Empty? && !s.slots[j].kind.Empty? ==>
      s.slots[i].dnode != s.slots[j].dnode
  }

  ghost predicate Inv(s: State) {
    && (forall t :: t in s.threads ==> ThreadOk(s, t))
    && (forall i :: 0 <= i < |s.slots| ==> SlotOk(s, i))
    && (forall id :: id in s.handles ==> HandleOk(s, id))
    && (forall id :: id in s.closer ==> id in s.handles)
    && Unique(s)
  }

  // ---- every step keeps what each thread relies on, one group of steps at a time

  /** Steps that change only the list lock. */
  lemma ListKeeps(s: State, t: nat, u: nat)
    requires Inv(s) && t in s.threads && u in s.threads
    requires s.threads[t].OWant? || s.threads[t].ODone?
    ensures ThreadOk(Advance(s, t), u)
  {
    assert ThreadOk(s, t) && ThreadOk(s, u);
  }

  /** Steps that fill a slot. */
  lemma TypeKeeps(s: State, t: nat, u: nat)
    requires Inv(s) && t in s.threads && u in s.threads && s.threads[t].OType?
    ensures ThreadOk(Advance(s, t), u)
  {
    assert ThreadOk(s, t) && ThreadOk(s, u);
  }

  lemma FillKeeps(s: State, t: nat, u: nat)
    requires Inv(s) && t in s.threads && u in s.threads && u != t && s.threads[t].OFill?
    ensures ThreadOk(Advance(s, t), u)
  {
    assert ThreadOk(s, t) && ThreadOk(s, u);
  }

  lemma FillKeepsOwn(s: State, t: nat)
    requires Inv(s) && t in s.threads && s.threads[t].OFill?
    ensures ThreadOk(Advance(s, t), t)
  {
    assert ThreadOk(s, t);
  }

  /** Steps of the scan that lock or unlock a slot: the thread itself. */
  lemma ScanKeepsOwn(s: State, t: nat)
    requires Inv(s) && t in s.threads && s.threads[t].OScan?
    ensures ThreadOk(Advance(s, t), t)
  {
    assert ThreadOk(s, t);
  }

  lemma LeaveKeepsOwn(s: State, t: nat)
    requires Inv(s) && t in s.threads && (s.threads[t].OSkip? || s.threads[t].OHit?)
    ensures ThreadOk(Advance(s, t), t)
  {
    assert ThreadOk(s, t);
    var i := LockedBy(s, s.threads[t]);
    if i.Some? && i.value < |s.slots| { assert SlotOk(s, i.value); }
  }

  /** Steps of the scan that lock or unlock a slot: the others. */
  lemma ScanKeeps(s: State, t: nat, u: nat)
    requires Inv(s) && t in s.threads && u in s.threads && u != t
    requires s.threads[t].OScan? || s.threads[t].OSkip? || s.threads[t].OHit?
    ensures ThreadOk(Advance(s, t), u)
  {
    assert ThreadOk(s, t) && ThreadOk(s, u);
    var i := LockedBy(s, s.threads[t]);
    if i.Some? && i.value < |s.slots| { assert SlotOk(s, i.value); }
  }

  /** The test of a scanned slot: the thread itself. */
  lemma LookKeepsOwn(s: State, t: nat)
    requires Inv(s) && t in s.threads
    requires s.threads[t].OAt?
    ensures ThreadOk(Advance(s, t), t)
  {
    assert ThreadOk(s, t);
    var i := LockedBy(s, s.threads[t]);
    if i.Some? && i.value < |s.slots| { assert SlotOk(s, i.value); }
  }

  /** A thread relies on nothing that changes when another moves on, ... */
  lemma GotoOnly(s: State, s': State, t: nat, u: nat)
    requires t in s.threads && u in s.threads && u != t && ThreadOk(s, u) && t in s'.threads
    requires s'.threads == s.threads[t := s'.threads[t]] && s'.slots == s.slots && s'.listLock == s.listLock
    requires s'.handles == s.handles && s'.closer == s.closer && !s'.threads[t].CWipe?
    ensures ThreadOk(s', u)
  {
    assert LockedBy(s', s'.threads[u]) == LockedBy(s, s.threads[u]);
  }

  /** ... or changes the count of a slot that is in use and that u has not locked. */
  lemma RefsOnly(s: State, s': State, t: nat, u: nat, i: nat, refs: int)
    requires t in s.threads && u in s.threads && ThreadOk(s, u) && t in s'.threads && i < |s.slots|
    requires s'.threads == s.threads[t := s'.threads[t]] && s'.listLock == s.listLock && !s'.threads[t].CWipe?
    requires s'.threads[u] == s.threads[u] && s'.slots == s.slots[i := s.slots[i].(refs := refs)]
    requires !s.slots[i].kind.Empty? && s.threads[u] != CZero(i)
    requires forall id :: id in s.handles && s.threads[u] == CWant(id) ==>
      id in s'.handles && id in s'.closer && s'.closer[id] == u
    requires forall id :: id in s.handles && s.threads[u] == CAt(id) ==>
      id in s'.handles && s'.handles[id] == s.handles[id] && id in s'.closer && s'.closer[id] == u
    ensures ThreadOk(s', u)
  {
    assert LockedBy(s', s'.threads[u]) == LockedBy(s, s.threads[u]);
  }

  /** The test of a scanned slot: the others. */
  lemma LookKeeps(s: State, t: nat, u: nat)
    requires Inv(s) && t in s.threads && u in s.threads && u != t
    requires s.threads[t].OAt?
    ensures ThreadOk(Advance(s, t), u)
  {
    assert ThreadOk(s, t) && ThreadOk(s, u);
    var i := s.threads[t].i;
    if s.slots[i].kind.Empty? || s.slots[i].dnode != s.threads[t].d {
      GotoOnly(s, Advance(s, t), t, u);
    } else {
      forall h | h in s.handles ensures h < s.nextId { assert HandleOk(s, h); }
      RefsOnly(s, Advance(s, t), t, u, i, s.slots[i].refs + 1);
    }
  }

  /** fs_close locks its slot. */
  lemma CloseLockKeeps(s: State, t: nat, u: nat)
    requires Inv(s) && t in s.threads && u in s.threads
    requires s.threads[t].CWant?
    ensures ThreadOk(Advance(s, t), u)
  {
    assert ThreadOk(s, t) && ThreadOk(s, u);
    assert HandleOk(s, s.threads[t].id);
  }

  /** A thread relies on nothing that another changes by locking or unlocking a slot. */
  lemma LocksOnly(s: State, s': State, t: nat, u: nat, i: nat, lock: Option<nat>)
    requires t in s.threads && u in s.threads && u != t && ThreadOk(s, u) && i < |s.slots|
    requires t in s'.threads && s'.threads == s.threads[t := s'.threads[t]] && s'.listLock == s.listLock
    requires s'.handles == s.handles && s'.closer == s.closer
    requires s'.slots == s.slots[i := s.slots[i].(lock := lock)] && !s'.threads[t].CWipe?
    requires (s.slots[i].lock == Some(t) && lock == None) || (s.slots[i].lock == None && lock == Some(t))
    ensures ThreadOk(s', u)
  {
    assert LockedBy(s', s'.threads[u]) == LockedBy(s, s.threads[u]);
  }

  /** fs_close unlocks its slot: the others. */
  lemma CloseUnlockKeeps(s: State, t: nat, u: nat)
    requires Inv(s) && t in s.threads && u in s.threads && u != t && s.threads[t].CUnlock?
    ensures ThreadOk(Advance(s, t), u)
  {
    assert ThreadOk(s, t) && ThreadOk(s, u);
    LocksOnly(s, Advance(s, t), t, u, s.threads[t].i, None);
  }

  /** fs_close gives its reference back: the thread itself. */
  lemma CloseDropKeepsOwn(s: State, t: nat)
    requires Inv(s) && t in s.threads
    requires s.threads[t].CAt?
    ensures ThreadOk(Advance(s, t), t)
  {
    assert ThreadOk(s, t);
    assert HandleOk(s, s.threads[t].id);
    var i := LockedBy(s, s.threads[t]);
    if i.Some? && i.value < |s.slots| { assert SlotOk(s, i.value); }
  }

  /** fs_close gives its reference back: the others. */
  lemma CloseDropKeeps(s: State, t: nat, u: nat)
    requires Inv(s) && t in s.threads && u in s.threads && u != t
    requires s.threads[t].CAt?
    ensures ThreadOk(Advance(s, t), u)
  {
    assert ThreadOk(s, t) && ThreadOk(s, u) && HandleOk(s, s.threads[t].id);
    var i := s.handles[s.threads[t].id].slot;
    RefsOnly(s, Advance(s, t), t, u, i, s.slots[i].refs - 1);
  }

  /** fs_close empties the slot. */
  lemma CloseMarkKeeps(s: State, t: nat, u: nat)
    requires Inv(s) && t in s.threads && u in s.threads && u != t && s.threads[t].CZero?
    ensures ThreadOk(Advance(s, t), u)
  {
    assert ThreadOk(s, t) && ThreadOk(s, u);
    MarkOnly(s, Advance(s, t), t, u, s.threads[t].i);
  }

  /** Nobody relies on a slot whose last reference is gone. */
  lemma MarkOnly(s: State, s': State, t: nat, u: nat, i: nat)
    requires t in s.threads && u in s.threads && u != t && ThreadOk(s, u) && i < |s.slots|
    requires s'.threads == s.threads[t := CWipe(i)] && s'.listLock == s.listLock
    requires s'.handles == s.handles && s'.closer == s.closer
    requires s.slots[i].lock == Some(t) && !s.slots[i].kind.Empty?
    requires s'.slots == s.slots[i := s.slots[i].(kind := Empty)]
    ensures ThreadOk(s', u)
  {
    assert LockedBy(s', s'.threads[u]) == LockedBy(s, s.threads[u]);
  }

  lemma CloseWipeKeeps(s: State, t: nat, u: nat)
    requires Inv(s) && t in s.threads && u in s.threads && u != t && s.threads[t].CWipe?
    ensures ThreadOk(Advance(s, t), u)
  {
    assert ThreadOk(s, t) && ThreadOk(s, u);
    WipeOnly(s, Advance(s, t), t, u, s.threads[t].i);
  }

  /** Nor on what it wipes. */
  lemma WipeOnly(s: State, s': State, t: nat, u: nat, i: nat)
    requires t in s.threads && u in s.threads && u != t && ThreadOk(s, u) && i < |s.slots|
    requires s'.threads == s.threads[t := CUnlock(i)] && s'.listLock == s.listLock && s'.handles == s.handles
    requires s'.closer == s.closer
    requires s.threads[t] == CWipe(i) && s.slots[i].lock == Some(t) && s.slots[i].kind.Empty?
    requires s'.slots == s.slots[i := s.slots[i].(dnode := 0)]
    ensures ThreadOk(s', u)
  {
    assert LockedBy(s', s'.threads[u]) == LockedBy(s, s.threads[u]);
  }

  /** The last steps of fs_close: the thread itself. */
  lemma CloseEndKeepsOwn(s: State, t: nat)
    requires Inv(s) && t in s.threads && (s.threads[t].CWipe? || s.threads[t].CUnlock?)
    ensures ThreadOk(Advance(s, t), t)
  {
    assert ThreadOk(s, t);
  }

  lemma CloseMarkKeepsOwn(s: State, t: nat)
    requires Inv(s) && t in s.threads && s.threads[t].CZero?
    ensures ThreadOk(Advance(s, t), t)
  {
    assert ThreadOk(s, t);
  }

  lemma AdvanceKeepsThread(s: State, t: nat, u: nat)
    requires Inv(s) && t in s.threads && u in s.threads
    ensures ThreadOk(Advance(s, t), u)
  {
    match s.threads[t]
    case Idle => assert ThreadOk(s, u);
    case OScan(_, _, _, _) => if u == t { ScanKeepsOwn(s, t); } else { ScanKeeps(s, t, u); }
    case OSkip(_, _, _, _) => if u == t { LeaveKeepsOwn(s, t); } else { ScanKeeps(s, t, u); }
    case OHit(_, _) => if u == t { LeaveKeepsOwn(s, t); } else { ScanKeeps(s, t, u); }
    case OAt(_, _, _, _) => if u == t { LookKeepsOwn(s, t); } else { LookKeeps(s, t, u); }
    case CWant(_) => CloseLockKeeps(s, t, u);
    case CUnlock(_) => if u == t { CloseEndKeepsOwn(s, t); } else { CloseUnlockKeeps(s, t, u); }
    case CAt(_) => if u == t { CloseDropKeepsOwn(s, t); } else { CloseDropKeeps(s, t, u); }
    case CZero(_) => if u == t { CloseMarkKeepsOwn(s, t); } else { CloseMarkKeeps(s, t, u); }
    case CWipe(_) => if u == t { CloseEndKeepsOwn(s, t); } else { CloseWipeKeeps(s, t, u); }
    case OFill(_, _, _) => if u == t { FillKeepsOwn(s, t); } else { FillKeeps(s, t, u); }
    case OType(_, _, _) => TypeKeeps(s, t, u);
    case _ => ListKeeps(s, t, u);
  }

  // ---- ... and the slots and handles

  lemma IssueIds(s: State, s': State, i: nat)
    requires s.nextId !in s.handles && s.nextId in s'.handles
    requires s'.handles == s.handles[s.nextId := s'.handles[s.nextId]]
    ensures Ids(s', i) == if s'.handles[s.nextId].slot == i then Ids(s, i) + {s.nextId} else Ids(s, i)
  {}

  lemma DropIds(s: State, s': State, id: nat, i: nat)
    requires id in s.handles && s'.handles == s.handles - {id}
    ensures Ids(s', i) == Ids(s, i) - {id}
    ensures s.handles[id].slot == i ==> |Ids(s', i)| == |Ids(s, i)| - 1
    ensures s.handles[id].slot != i ==> Ids(s', i) == Ids(s, i)
  {
    assert id in Ids(s, i) <==> s.handles[id].slot == i;
  }

  /** Steps that hand out a handle. */
  lemma LookKeepsSlot(s: State, t: nat, i: nat)
    requires Inv(s) && t in s.threads && i < |s.slots| && s.threads[t].OAt?
    ensures SlotOk(Advance(s, t), i)
  {
    var s', j := Advance(s, t), s.threads[t].i;
    assert ThreadOk(s, t) && SlotOk(s, i);
    assert s.nextId in s.handles ==> HandleOk(s, s.nextId);
    if j == i {
      if s'.handles != s.handles { IssueIds(s, s', i); } else { assert Ids(s', i) == Ids(s, i); }
    } else {
      LookKeepsOther(s, t, i);
    }
  }

  lemma LookKeepsOther(s: State, t: nat, i: nat)
    requires Inv(s) && t in s.threads && i < |s.slots| && s.threads[t].OAt? && s.threads[t].i != i
    ensures SlotOk(Advance(s, t), i)
  {
    var s' := Advance(s, t);
    assert ThreadOk(s, t) && SlotOk(s, i);
    assert s.nextId in s.handles ==> HandleOk(s, s.nextId);
    assert Ids(s', i) == Ids(s, i);
    if LockerAt(s, i, CZero(i)) { assert ThreadOk(s, s.slots[i].lock.value); }
  }

  lemma TypeKeepsSlot(s: State, t: nat, i: nat)
    requires Inv(s) && t in s.threads && i < |s.slots| && s.threads[t].OType?
    ensures SlotOk(Advance(s, t), i)
  {
    var s' := Advance(s, t);
    assert ThreadOk(s, t) && SlotOk(s, i);
    assert s.nextId in s.handles ==> HandleOk(s, s.nextId);
    IssueIds(s, s', i);
    if LockerAt(s, i, CZero(i)) { assert ThreadOk(s, s.slots[i].lock.value); }
  }

  /** The step that gives a handle back. */
  lemma DropKeepsSlot(s: State, t: nat, i: nat)
    requires Inv(s) && t in s.threads && i < |s.slots| && s.threads[t].CAt?
    ensures SlotOk(Advance(s, t), i)
  {
    assert ThreadOk(s, t) && SlotOk(s, i) && HandleOk(s, s.threads[t].id);
    DropIds(s, Advance(s, t), s.threads[t].id, i);
    if LockerAt(s, i, CZero(i)) { assert ThreadOk(s, s.slots[i].lock.value); }
  }

  /** Steps that leave the locks of the slots alone. */
  lemma ListKeepsSlot(s: State, t: nat, i: nat)
    requires Inv(s) && t in s.threads && i < |s.slots|
    requires var pc := s.threads[t]; pc.Idle? || pc.OWant? || pc.OFill? || pc.ODone?
    ensures SlotOk(Advance(s, t), i)
  {
    assert ThreadOk(s, t) && SlotOk(s, i);
    assert Ids(Advance(s, t), i) == Ids(s, i);
    if Filling(s, i) { assert ThreadOk(s, s.listLock.value); }
  }

  /** Steps that empty a slot. */
  lemma WipeKeepsSlot(s: State, t: nat, i: nat)
    requires Inv(s) && t in s.threads && i < |s.slots| && (s.threads[t].CZero? || s.threads[t].CWipe?)
    ensures SlotOk(Advance(s, t), i)
  {
    assert ThreadOk(s, t) && SlotOk(s, i);
    assert Ids(Advance(s, t), i) == Ids(s, i);
    if LockerAt(s, i, CZero(i)) { assert ThreadOk(s, s.slots[i].lock.value); }
  }

  /** Steps that lock or unlock a slot. */
  lemma ScanKeepsSlot(s: State, t: nat, i: nat)
    requires Inv(s) && t in s.threads && i < |s.slots|
    requires s.threads[t].OScan? || s.threads[t].OSkip? || s.threads[t].OHit?
    ensures SlotOk(Advance(s, t), i)
  {
    assert ThreadOk(s, t) && SlotOk(s, i);
    assert Ids(Advance(s, t), i) == Ids(s, i);
    if LockerAt(s, i, CZero(i)) { assert ThreadOk(s, s.slots[i].lock.value); }
  }

  lemma LockKeepsSlot(s: State, t: nat, i: nat)
    requires Inv(s) && t in s.threads && i < |s.slots| && (s.threads[t].CWant? || s.threads[t].CUnlock?)
    ensures SlotOk(Advance(s, t), i)
  {
    assert ThreadOk(s, t) && SlotOk(s, i);
    assert Ids(Advance(s, t), i) == Ids(s, i);
    if LockerAt(s, i, CZero(i)) { assert ThreadOk(s, s.slots[i].lock.value); }
  }

  /** A handle whose slot keeps its type and dnode stays good. */
  lemma SameKind(s: State, s': State, id: nat)
    requires id in s.handles && HandleOk(s, id) && id in s'.handles && s'.handles[id] == s.handles[id]
    requires |s'.slots| == |s.slots| && s'.nextId >= s.nextId
    requires s'.slots[s.handles[id].slot].kind == s.slots[s.handles[id].slot].kind
    requires s'.slots[s.handles[id].slot].dnode == s.slots[s.handles[id].slot].dnode
    ensures HandleOk(s', id)
  {}

  /** Filling and emptying a slot leaves the slots of handles alone. */
  lemma FillKeepsHandle(s: State, t: nat, id: nat)
    requires Inv(s) && t in s.threads && id in s.handles && id in Advance(s, t).handles
    requires var pc := s.threads[t]; pc.OFill? || pc.OType? || pc.CZero? || pc.CWipe?
    ensures HandleOk(Advance(s, t), id)
  {
    assert ThreadOk(s, t) && HandleOk(s, id);
    assert SlotOk(s, s.handles[id].slot) && id in Ids(s, s.handles[id].slot);
    assert id != s.nextId;
    SameKind(s, Advance(s, t), id);
  }

  lemma AdvanceKeepsHandle(s: State, t: nat, id: nat)
    requires Inv(s) && t in s.threads && id in s.handles && id in Advance(s, t).handles
    ensures HandleOk(Advance(s, t), id)
  {
    assert HandleOk(s, id);
    assert id != s.nextId;
    var pc := s.threads[t];
    if pc.OFill? || pc.OType? || pc.CZero? || pc.CWipe? {
      FillKeepsHandle(s, t, id);
    } else {
      KindsStay(s, t, s.handles[id].slot);
      SameHandles(s, t, id);
      SameKind(s, Advance(s, t), id);
    }
  }

  /** Other steps change no type and no dnode, ... */
  lemma KindsStay(s: State, t: nat, j: nat)
    requires t in s.threads && j < |s.slots|
    requires var pc := s.threads[t]; !pc.OFill? && !pc.OType? && !pc.CZero? && !pc.CWipe?
    ensures var x := Advance(s, t).slots[j]; x.kind == s.slots[j].kind && x.dnode == s.slots[j].dnode
  {}

  /** ... and no step changes what a handle is for. */
  lemma SameHandles(s: State, t: nat, id: nat)
    requires t in s.threads && id in s.handles && id != s.nextId && id in Advance(s, t).handles
    ensures Advance(s, t).handles[id] == s.handles[id] && Advance(s, t).nextId >= s.nextId
  {}

  lemma AdvanceAddsHandle(s: State, t: nat, id: nat)
    requires Inv(s) && t in s.threads && id !in s.handles && id in Advance(s, t).handles
    ensures HandleOk(Advance(s, t), id)
  {
    assert ThreadOk(s, t);
  }

  lemma AdvanceKeepsUnique(s: State, t: nat)
    requires Inv(s) && t in s.threads
    ensures Unique(Advance(s, t))
  {
    assert ThreadOk(s, t);
  }

  lemma AdvanceKeepsSlot(s: State, t: nat, i: nat)
    requires Inv(s) && t in s.threads && i < |s.slots|
    ensures SlotOk(Advance(s, t), i)
  {
    var pc := s.threads[t];
    if pc.OAt? {
      LookKeepsSlot(s, t, i);
    } else if pc.OType? {
      TypeKeepsSlot(s, t, i);
    } else if pc.CAt? {
      DropKeepsSlot(s, t, i);
    } else if pc.Idle? || pc.OWant? || pc.OFill? || pc.ODone? {
      ListKeepsSlot(s, t, i);
    } else if pc.CZero? || pc.CWipe? {
      WipeKeepsSlot(s, t, i);
    } else if pc.OScan? || pc.OSkip? || pc.OHit? {
      ScanKeepsSlot(s, t, i);
    } else {
      LockKeepsSlot(s, t, i);
    }
  }

  lemma AdvanceKeeps(s: State, t: nat)
    requires Inv(s) && t in s.threads
    ensures Inv(Advance(s, t))
  {
    var s' := Advance(s, t);
    forall u | u in s'.threads ensures ThreadOk(s', u) { AdvanceKeepsThread(s, t, u); }
    forall i: nat | i < |s'.slots| ensures SlotOk(s', i) { AdvanceKeepsSlot(s, t, i); }
    forall id | id in s'.handles ensures HandleOk(s', id) {
      if id in s.handles { AdvanceKeepsHandle(s, t, id); } else { AdvanceAddsHandle(s, t, id); }
    }
    AdvanceKeepsUnique(s, t);
    AdvanceKeepsCloser(s, t);
  }

  lemma AdvanceKeepsCloser(s: State, t: nat)
    requires Inv(s) && t in s.threads
    ensures forall id :: id in Advance(s, t).closer ==> id in Advance(s, t).handles
  {
    assert ThreadOk(s, t);
  }

  lemma DupKeepsThread(s: State, t: nat, id: nat, u: nat)
    requires Inv(s) && t in s.threads && u in s.threads
    ensures ThreadOk(Next(s, CallDup(t, id)), u)
  {
    assert ThreadOk(s, u);
    if s.threads[t].Idle? && Usable(s, id) {
      var i := s.handles[id].slot;
      assert HandleOk(s, id) && SlotOk(s, i) && id in Ids(s, i);
      forall h | h in s.handles ensures h < s.nextId { assert HandleOk(s, h); }
      RefsOnly(s, Next(s, CallDup(t, id)), t, u, i, s.slots[i].refs + 1);
    }
  }

  /** fs_dup needs no lock: its caller holds a handle, so the count is not 0. */
  lemma DupKeeps(s: State, t: nat, id: nat)
    requires Inv(s) && t in s.threads
    ensures Inv(Next(s, CallDup(t, id)))
  {
    var s' := Next(s, CallDup(t, id));
    if s' != s {
      var i := s.handles[id].slot;
      assert HandleOk(s, id) && SlotOk(s, i) && id in Ids(s, i);
      assert s.nextId in s.handles ==> HandleOk(s, s.nextId);
      forall u | u in s'.threads ensures ThreadOk(s', u) { DupKeepsThread(s, t, id, u); }
      forall j | 0 <= j < |s'.slots| ensures SlotOk(s', j) {
        assert SlotOk(s, j);
        IssueIds(s, s', j);
      }
      forall d | d in s'.handles ensures HandleOk(s', d) { assert d != s.nextId ==> HandleOk(s, d); }
    }
  }

  lemma CallOpenKeeps(s: State, step: Step, u: nat)
    requires Inv(s) && step.CallOpen? && u in s.threads
    ensures ThreadOk(Next(s, step), u)
  {
    assert ThreadOk(s, u);
  }

  lemma CallCloseKeeps(s: State, step: Step, u: nat)
    requires Inv(s) && step.CallClose? && u in s.threads
    ensures ThreadOk(Next(s, step), u)
  {
    assert ThreadOk(s, u);
  }

  lemma CallKeeps(s: State, step: Step)
    requires Inv(s) && (step.CallOpen? || step.CallClose?)
    ensures Inv(Next(s, step))
  {
    var s' := Next(s, step);
    forall u | u in s'.threads ensures ThreadOk(s', u) {
      if step.CallOpen? { CallOpenKeeps(s, step, u); } else { CallCloseKeeps(s, step, u); }
    }
    forall i | 0 <= i < |s'.slots| ensures SlotOk(s', i) {
      assert SlotOk(s, i) && Ids(s', i) == Ids(s, i);
    }
    forall id | id in s'.handles ensures HandleOk(s', id) { assert HandleOk(s, id); }
  }

  lemma NextKeeps(s: State, step: Step)
    requires Inv(s)
    ensures Inv(Next(s, step))
  {
    if step.t in s.threads {
      if step.Go? {
        AdvanceKeeps(s, step.t);
      } else if step.CallDup? {
        DupKeeps(s, step.t, step.id);
      } else {
        CallKeeps(s, step);
      }
    }
  }

  lemma {:induction false} RunKeeps(s: State, steps: seq<Step>)
    requires Inv(s)
    ensures Inv(Run(s, steps))
    decreases steps
  {
    if steps != [] {
      NextKeeps(s, steps[0]);
      RunKeeps(Next(s, steps[0]), steps[1..]);
    }
  }

  // ------------------------------------------------------------- the theorems

  ghost predicate Reachable(s: State) {
    exists s0: State, steps: seq<Step> :: Init(s0) && s == Run(s0, steps)
  }

  lemma ReachableInv(s: State)
    requires Reachable(s)
    ensures Inv(s)
  {
    var s0: State, steps: seq<Step> :| Init(s0) && s == Run(s0, steps);
    forall i | 0 <= i < |s0.slots| ensures SlotOk(s0, i) { assert Ids(s0, i) == {}; }
    RunKeeps(s0, steps);
  }

  /** No dnode is in two slots at once. */
  lemma OneSlotPerDnode(s: State, i: nat, j: nat)
    requires Reachable(s) && i < |s.slots| && j < |s.slots|
    requires !s.slots[i].kind.Empty? && !s.slots[j].kind.Empty? && s.slots[i].dnode == s.slots[j].dnode
    ensures i == j
  {
    ReachableInv(s);
  }

  /** The count of a slot in use is the number of its outstanding handles. */
  lemma CountIsHandles(s: State, i: nat)
    requires Reachable(s) && i < |s.slots|
    ensures !s.slots[i].kind.Empty? ==> s.slots[i].refs == |Ids(s, i)|
    ensures s.slots[i].kind.Empty? ==> Ids(s, i) == {}
  {
    ReachableInv(s);
    assert SlotOk(s, i);
  }

  lemma SameHandle(s: State, step: Step, id: nat)
    requires id in s.handles && id != s.nextId && id in Next(s, step).handles
    ensures Next(s, step).handles[id] == s.handles[id]
  {}

  /** As long as a handle is outstanding, its slot is in use for the dnode it was
      opened on: it is neither emptied nor given to another dnode, by any step. */
  lemma HandleStays(s: State, id: nat, step: Step)
    requires Reachable(s) && id in s.handles
    ensures HandleOk(s, id)
    ensures id in Next(s, step).handles ==>
      Next(s, step).handles[id] == s.handles[id] && HandleOk(Next(s, step), id)
  {
    ReachableInv(s);
    assert HandleOk(s, id);
    if id in Next(s, step).handles {
      NextKeeps(s, step);
      SameHandle(s, step, id);
    }
  }

  /** A handle disappears only when the thread that was asked to close it says so. */
  lemma HandleEnds(s: State, id: nat, step: Step)
    requires Reachable(s) && id in s.handles && id !in Next(s, step).handles
    ensures step.Go? && step.t in s.threads && s.threads[step.t] == CAt(id) && id in s.closer && s.closer[id] == step.t
  {
    ReachableInv(s);
    if step.t in s.threads { assert ThreadOk(s, step.t); }
  }

  /** What fs_open hands back is a handle on the dnode it was asked for. */
  lemma OpenGivesDnode(s: State, t: nat)
    requires Reachable(s) && t in s.threads
    ensures var pc, s' := s.threads[t], Advance(s, t);
      (pc.OAt? && s'.threads[t].OHit? ==>
         s'.threads[t].id in s'.handles && s'.handles[s'.threads[t].id].dnode == pc.d) &&
      (pc.OType? ==>
         && s'.threads[t].ODone? && s'.threads[t].result.Some?
         && s'.threads[t].result.value in s'.handles
         && s'.handles[s'.threads[t].result.value].dnode == pc.d)
  {
    ReachableInv(s);
    assert ThreadOk(s, t);
  }

  // ------------------------------------------------------------- what fs_open returns

  lemma RunMore(s: State, steps: seq<Step>, step: Step)
    ensures Run(s, steps + [step]) == Next(Run(s, steps), step)
    decreases steps
  {
    if steps != [] {
      assert (steps + [step])[1..] == steps[1..] + [step];
      RunMore(Next(s, steps[0]), steps[1..], step);
    }
  }

  /** The dnode thread t asked for when it last called fs_open. */
  function Asked(s0: State, steps: seq<Step>, t: nat): (d: nat) {
    if steps == [] then 0 else
    var n := |steps| - 1;
    if Calls(Run(s0, steps[..n]), steps[n], t) then steps[n].d else Asked(s0, steps[..n], t)
  }

  /** The states in which it has looked at a slot since then. */
  function Looks(s0: State, steps: seq<Step>, t: nat): (us: seq<State>) {
    if steps == [] then [] else
    var n := |steps| - 1;
    LooksThen(Run(s0, steps[..n]), Looks(s0, steps[..n], t), t, steps[n])
  }

  predicate Calls(s: State, step: Step, t: nat) {
    step.CallOpen? && step.t == t && t in s.threads && s.threads[t].Idle? && !step.k.Empty?
  }

  /** In state s thread t has slot j and the list locked, and the slot is in use for a
      dnode other than d. */
  predicate Other(s: State, t: nat, d: nat, j: nat) {
    && s.listLock == Some(t) && j < |s.slots| && s.slots[j].lock == Some(t)
    && !s.slots[j].kind.Empty? && s.slots[j].dnode != d
  }

  predicate Others(us: seq<State>, t: nat, d: nat, n: nat) {
    |us| == n && forall j: nat :: j < n ==> Other(us[j], t, d, j)
  }

  predicate LooksOk(s: State, us: seq<State>, t: nat, d: nat) {
    t in s.threads ==>
      match s.threads[t]
      case OWant(d', _) => d' == d && us == []
      case OScan(d', _, i, f) => d' == d && (f.None? ==> Others(us, t, d, i) && i <= |s.slots|)
      case OAt(d', _, i, f) => d' == d && (f.None? ==> Others(us, t, d, i))
      case OSkip(d', _, i, f) => d' == d && (f.None? ==> Others(us, t, d, i + 1))
      case ODone(r) => r.None? ==> Others(us, t, d, |s.slots|)
      case _ => true
  }

  function LooksThen(s: State, us: seq<State>, t: nat, step: Step): (us': seq<State>) {
    if Calls(s, step, t) then []
    else if step == Go(t) && t in s.threads && s.threads[t].OAt? then us + [s] else us
  }

  /** Steps of other threads, and calls. */
  lemma LooksStay(s: State, us: seq<State>, t: nat, d: nat, step: Step)
    requires LooksOk(s, us, t, d) && (step.t != t || !step.Go?)
    ensures LooksOk(Next(s, step), LooksThen(s, us, t, step), t, if Calls(s, step, t) then step.d else d)
  {
    if t in s.threads {
      assert Next(s, step).threads[t] == s.threads[t] || (step.t == t && s.threads[t].Idle?);
    }
  }

  /** The test of a slot. */
  lemma LooksAt(s: State, us: seq<State>, t: nat, d: nat)
    requires Inv(s) && LooksOk(s, us, t, d) && t in s.threads && s.threads[t].OAt?
    ensures LooksOk(Advance(s, t), us + [s], t, d)
  {
    assert ThreadOk(s, t);
  }

  /** The other steps of the thread itself. */
  lemma LooksOn(s: State, us: seq<State>, t: nat, d: nat)
    requires Inv(s) && LooksOk(s, us, t, d) && t in s.threads && !s.threads[t].OAt?
    ensures LooksOk(Advance(s, t), us, t, d)
  {
    assert ThreadOk(s, t);
  }

  lemma LooksNext(s: State, us: seq<State>, t: nat, d: nat, step: Step)
    requires Inv(s) && LooksOk(s, us, t, d)
    ensures LooksOk(Next(s, step), LooksThen(s, us, t, step), t, if Calls(s, step, t) then step.d else d)
  {
    if step == Go(t) && t in s.threads {
      if s.threads[t].OAt? { LooksAt(s, us, t, d); } else { LooksOn(s, us, t, d); }
    } else if step != Go(t) {
      LooksStay(s, us, t, d, step);
    }
  }

  lemma {:induction false} LooksRun(s0: State, steps: seq<Step>, t: nat)
    requires Init(s0)
    ensures Inv(Run(s0, steps)) && LooksOk(Run(s0, steps), Looks(s0, steps, t), t, Asked(s0, steps, t))
  {
    assert Reachable(Run(s0, steps));
    ReachableInv(Run(s0, steps));
    if steps != [] {
      var n := |steps| - 1;
      LooksRun(s0, steps[..n], t);
      assert steps == steps[..n] + [steps[n]];
      RunMore(s0, steps[..n], steps[n]);
      LooksNext(Run(s0, steps[..n]), Looks(s0, steps[..n], t), t, Asked(s0, steps[..n], t), steps[n]);
    }
  }

  /** fs_open returns NULL only if it has seen every slot of the table, one after the
      other and all of them since it was called, in use for another dnode. */
  lemma NoneMeansFull(s0: State, steps: seq<Step>, t: nat)
    requires Init(s0)
    ensures var s, us, d := Run(s0, steps), Looks(s0, steps, t), Asked(s0, steps, t);
      t in s.threads && s.threads[t] == ODone(None) ==>
        |us| == |s.slots| && forall j: nat :: j < |us| ==> Other(us[j], t, d, j)
  {
    LooksRun(s0, steps, t);
  }

  // ---- a call that is not disturbed

  /** n steps of thread t and no other. */
  function Alone(s: State, t: nat, n: nat): (s': State)
    decreases n
  {
    if n == 0 then s else Alone(Next(s, Go(t)), t, n - 1)
  }

  lemma {:induction false} AloneJoin(s: State, t: nat, n: nat, m: nat)
    ensures Alone(Alone(s, t, n), t, m) == Alone(s, t, n + m)
    decreases n
  {
    if n > 0 { AloneJoin(Next(s, Go(t)), t, n - 1, m); }
  }

  predicate NoSlotLocked(s: State) {
    forall i :: 0 <= i < |s.slots| ==> s.slots[i].lock.None?
  }

  /** Slot j is in use for dnode d. */
  predicate UsedFor(s: State, d: nat, j: nat) {
    j < |s.slots| && !s.slots[j].kind.Empty? && s.slots[j].dnode == d
  }

  predicate IsEmpty(s: State, j: nat) {
    j < |s.slots| && s.slots[j].kind.Empty?
  }

  /** The whole state after thread t has opened dnode d, of kind k, in slot j: a new
      handle on it, and one reference more or a slot newly filled. */
  predicate OpenedIn(s: State, s': State, t: nat, d: nat, k: Kind, j: nat) {
    && j < |s.slots| && t in s.threads
    && s'.handles == s.handles[s.nextId := Handle(j, d)] && s'.nextId == s.nextId + 1
    && s'.threads == s.threads[t := ODone(Some(s.nextId))]
    && s'.listLock == s.listLock && s'.closer == s.closer
    && s'.slots == s.slots[j := if UsedFor(s, d, j) then s.slots[j].(refs := s.slots[j].refs + 1)
                                else Slot(k, d, 1, s.slots[j].lock)]
  }

  /** The outcome of a scan from slot i on, with the free slot f noted before. */
  ghost predicate ScanGives(s: State, s': State, t: nat, d: nat, k: Kind, i: nat, f: Option<nat>) {
    if exists j: nat :: i <= j && UsedFor(s, d, j) then exists j: nat :: UsedFor(s, d, j) && OpenedIn(s, s', t, d, k, j)
    else if f.Some? || (exists j: nat :: i <= j && IsEmpty(s, j)) then
      exists j: nat :: IsEmpty(s, j) && OpenedIn(s, s', t, d, k, j)
    else s' == Goto(s, t, ODone(None))
  }

  /** Some number of steps of thread t lead from s to s'. */
  ghost predicate Leads(s: State, s': State, t: nat) {
    exists n: nat :: Alone(s, t, n) == s'
  }

  lemma LeadsOne(s: State, s': State, t: nat)
    requires t in s.threads && Advance(s, t) == s'
    ensures Leads(s, s', t)
  {
    assert Alone(s, t, 1) == Alone(Next(s, Go(t)), t, 0);
  }

  lemma LeadsJoin(s: State, s1: State, s': State, t: nat)
    requires Leads(s, s1, t) && Leads(s1, s', t)
    ensures Leads(s, s', t)
  {
    var n: nat :| Alone(s, t, n) == s1;
    var m: nat :| Alone(s1, t, m) == s';
    AloneJoin(s, t, n, m);
  }

  // The single steps of an undisturbed thread.

  function Locked(s: State, t: nat, pc: Pc, i: nat, lock: Option<nat>): State
    requires i < |s.slots|
  {
    s.(threads := s.threads[t := pc], slots := s.slots[i := s.slots[i].(lock := lock)])
  }

  lemma GoLock(s: State, t: nat, d: nat, k: Kind, i: nat, f: Option<nat>)
    requires t in s.threads && s.threads[t] == OScan(d, k, i, f) && i < |s.slots| && s.slots[i].lock.None?
    ensures Leads(s, Locked(s, t, OAt(d, k, i, f), i, Some(t)), t)
  {
    LeadsOne(s, Locked(s, t, OAt(d, k, i, f), i, Some(t)), t);
  }

  lemma GoLook(s: State, t: nat, d: nat, k: Kind, i: nat, f: Option<nat>)
    requires t in s.threads && s.threads[t] == OAt(d, k, i, f) && i < |s.slots| && !UsedFor(s, d, i)
    ensures Leads(s, Goto(s, t, OSkip(d, k, i, if IsEmpty(s, i) then Some(i) else f)), t)
  {
    LeadsOne(s, Goto(s, t, OSkip(d, k, i, if IsEmpty(s, i) then Some(i) else f)), t);
  }

  lemma GoSkip(s: State, t: nat, d: nat, k: Kind, i: nat, f: Option<nat>)
    requires t in s.threads && s.threads[t] == OSkip(d, k, i, f) && i < |s.slots|
    ensures Leads(s, Locked(s, t, OScan(d, k, i + 1, f), i, None), t)
  {
    LeadsOne(s, Locked(s, t, OScan(d, k, i + 1, f), i, None), t);
  }

  /** Slot i gets one reference more, for a new handle. */
  function Taken(s: State, t: nat, d: nat, i: nat): State
    requires i < |s.slots|
  {
    State(s.slots[i := s.slots[i].(refs := s.slots[i].refs + 1)], s.listLock, s.threads[t := OHit(i, s.nextId)],
          s.handles[s.nextId := Handle(i, d)], s.closer, s.nextId + 1)
  }

  lemma GoHit(s: State, t: nat, d: nat, k: Kind, i: nat, f: Option<nat>)
    requires t in s.threads && s.threads[t] == OAt(d, k, i, f) && UsedFor(s, d, i)
    ensures Leads(s, Taken(s, t, d, i), t)
  {
    LeadsOne(s, Taken(s, t, d, i), t);
  }

  lemma GoDone(s: State, t: nat, i: nat, id: nat)
    requires t in s.threads && s.threads[t] == OHit(i, id) && i < |s.slots|
    ensures Leads(s, Locked(s, t, ODone(Some(id)), i, None), t)
  {
    LeadsOne(s, Locked(s, t, ODone(Some(id)), i, None), t);
  }

  lemma GoEnd(s: State, t: nat, d: nat, k: Kind, f: Option<nat>)
    requires t in s.threads && s.threads[t] == OScan(d, k, |s.slots|, f)
    ensures Leads(s, Goto(s, t, if f.Some? then OFill(d, k, f.value) else ODone(None)), t)
  {
    LeadsOne(s, Goto(s, t, if f.Some? then OFill(d, k, f.value) else ODone(None)), t);
  }

  lemma GoFill(s: State, t: nat, d: nat, k: Kind, f: nat)
    requires t in s.threads && s.threads[t] == OFill(d, k, f) && f < |s.slots|
    ensures Leads(s, s.(threads := s.threads[t := OType(d, k, f)],
                        slots := s.slots[f := s.slots[f].(dnode := d, refs := 1)]), t)
  {
    LeadsOne(s, s.(threads := s.threads[t := OType(d, k, f)],
                   slots := s.slots[f := s.slots[f].(dnode := d, refs := 1)]), t);
  }

  /** The state after the type of slot f is set. */
  function Typed(s: State, t: nat, d: nat, k: Kind, f: nat): State
    requires f < |s.slots|
  {
    State(s.slots[f := s.slots[f].(kind := k)], s.listLock, s.threads[t := ODone(Some(s.nextId))],
          s.handles[s.nextId := Handle(f, d)], s.closer, s.nextId + 1)
  }

  lemma GoType(s: State, t: nat, d: nat, k: Kind, f: nat)
    requires t in s.threads && s.threads[t] == OType(d, k, f) && f < |s.slots|
    ensures Leads(s, Typed(s, t, d, k, f), t)
  {
    LeadsOne(s, Typed(s, t, d, k, f), t);
  }

  /** A slot that is not the one is locked, looked at and unlocked. */
  lemma PassesBy(s: State, t: nat, d: nat, k: Kind, i: nat, f: Option<nat>)
    requires t in s.threads && s.threads[t] == OScan(d, k, i, f) && NoSlotLocked(s) && i < |s.slots|
    requires !UsedFor(s, d, i)
    ensures Leads(s, Goto(s, t, OScan(d, k, i + 1, if IsEmpty(s, i) then Some(i) else f)), t)
  {
    var f' := if IsEmpty(s, i) then Some(i) else f;
    var s1 := Locked(s, t, OAt(d, k, i, f), i, Some(t));
    GoLock(s, t, d, k, i, f);
    assert !UsedFor(s1, d, i) && IsEmpty(s1, i) == IsEmpty(s, i);
    GoLook(s1, t, d, k, i, f);
    var s2 := Goto(s1, t, OSkip(d, k, i, f'));
    GoSkip(s2, t, d, k, i, f');
    var s3 := Goto(s, t, OScan(d, k, i + 1, f'));
    BackAsBefore(s, s3, t, i, OAt(d, k, i, f), OSkip(d, k, i, f'), OScan(d, k, i + 1, f'));
    LeadsJoin(s, s1, s2, t);
    LeadsJoin(s, s2, s3, t);
  }

  /** Unlocking a slot undoes locking it. */
  lemma BackAsBefore(s: State, s3: State, t: nat, i: nat, pc1: Pc, pc2: Pc, pc3: Pc)
    requires i < |s.slots| && s.slots[i].lock.None? && s3 == Goto(s, t, pc3)
    ensures s3 == Locked(Goto(Locked(s, t, pc1, i, Some(t)), t, pc2), t, pc3, i, None)
  {
  }

  lemma Hits(s: State, t: nat, d: nat, k: Kind, i: nat, f: Option<nat>) returns (s': State)
    requires t in s.threads && s.threads[t] == OScan(d, k, i, f) && NoSlotLocked(s) && UsedFor(s, d, i)
    ensures Leads(s, s', t) && OpenedIn(s, s', t, d, k, i)
  {
    var s1 := Locked(s, t, OAt(d, k, i, f), i, Some(t));
    GoLock(s, t, d, k, i, f);
    assert UsedFor(s1, d, i);
    GoHit(s1, t, d, k, i, f);
    var s2 := Taken(s1, t, d, i);
    GoDone(s2, t, i, s.nextId);
    s' := Locked(s2, t, ODone(Some(s.nextId)), i, None);
    LeadsJoin(s, s1, s2, t);
    LeadsJoin(s, s2, s', t);
  }

  lemma Fills(s: State, t: nat, d: nat, k: Kind, f: nat) returns (s': State)
    requires t in s.threads && s.threads[t] == OScan(d, k, |s.slots|, Some(f)) && IsEmpty(s, f)
    ensures Leads(s, s', t) && OpenedIn(s, s', t, d, k, f)
  {
    var s1 := Goto(s, t, OFill(d, k, f));
    GoEnd(s, t, d, k, Some(f));
    GoFill(s1, t, d, k, f);
    var s2 := s1.(threads := s1.threads[t := OType(d, k, f)],
                  slots := s1.slots[f := s1.slots[f].(dnode := d, refs := 1)]);
    GoType(s2, t, d, k, f);
    s' := Typed(s2, t, d, k, f);
    LeadsJoin(s, s1, s2, t);
    LeadsJoin(s, s2, s', t);
  }

  lemma {:induction false} ScanAlone(s: State, t: nat, d: nat, k: Kind, i: nat, f: Option<nat>) returns (s': State)
    requires t in s.threads && s.threads[t] == OScan(d, k, i, f) && NoSlotLocked(s) && i <= |s.slots|
    requires f.Some? ==> IsEmpty(s, f.value)
    ensures Leads(s, s', t) && ScanGives(s, s', t, d, k, i, f)
    decreases |s.slots| - i
  {
    if i == |s.slots| {
      if f.Some? {
        s' := Fills(s, t, d, k, f.value);
      } else {
        GoEnd(s, t, d, k, f);
        s' := Goto(s, t, ODone(None));
      }
      return;
    }
    if UsedFor(s, d, i) {
      s' := Hits(s, t, d, k, i, f);
      return;
    }
    PassesBy(s, t, d, k, i, f);
    var f' := if IsEmpty(s, i) then Some(i) else f;
    var s3 := Goto(s, t, OScan(d, k, i + 1, f'));
    s' := ScanAlone(s3, t, d, k, i + 1, f');
    LeadsJoin(s, s3, s', t);
    ScanLater(s, s3, s', t, d, k, i, f);
  }

  /** What the rest of the scan gives is what the scan from slot i gives. */
  lemma ScanLater(s: State, s3: State, s': State, t: nat, d: nat, k: Kind, i: nat, f: Option<nat>)
    requires t in s.threads && i < |s.slots| && !UsedFor(s, d, i)
    requires var f' := if IsEmpty(s, i) then Some(i) else f;
      s3 == Goto(s, t, OScan(d, k, i + 1, f')) && ScanGives(s3, s', t, d, k, i + 1, f')
    ensures ScanGives(s, s', t, d, k, i, f)
  {
    forall j: nat ensures UsedFor(s3, d, j) == UsedFor(s, d, j) && IsEmpty(s3, j) == IsEmpty(s, j) {}
    forall j: nat | OpenedIn(s3, s', t, d, k, j) ensures OpenedIn(s, s', t, d, k, j) {
      assert s3.threads[t := ODone(Some(s.nextId))] == s.threads[t := ODone(Some(s.nextId))];
    }
    assert Goto(s3, t, ODone(None)) == Goto(s, t, ODone(None));
  }

  lemma GoList(s: State, t: nat, d: nat, k: Kind)
    requires t in s.threads && s.threads[t].Idle? && !k.Empty? && s.listLock.None?
    ensures Leads(Next(s, CallOpen(t, d, k)),
                  s.(threads := s.threads[t := OScan(d, k, 0, None)], listLock := Some(t)), t)
  {
    var s1 := s.(threads := s.threads[t := OWant(d, k)]);
    var s2 := s.(threads := s.threads[t := OScan(d, k, 0, None)], listLock := Some(t));
    assert s1.threads[t := OScan(d, k, 0, None)] == s2.threads;
    LeadsOne(s1, s2, t);
  }

  /** A thread that opens dnode d while no lock is held and no other thread moves gets a
      handle on d exactly if some slot is in use for d or empty: one reference more on the
      slot in use for d, or an empty slot that is in use for d from now on.  Otherwise
      nothing changes. */
  lemma OpenAlone(s: State, t: nat, d: nat, k: Kind) returns (s': State)
    requires t in s.threads && s.threads[t].Idle? && !k.Empty? && s.listLock.None? && NoSlotLocked(s)
    ensures Leads(Next(s, CallOpen(t, d, k)), s', t) && t in s'.threads && s'.threads[t].ODone?
    ensures s'.threads[t].result.Some? <==> exists j: nat :: UsedFor(s, d, j) || IsEmpty(s, j)
    ensures var u := s.(listLock := Some(t));
      if exists j: nat :: UsedFor(s, d, j) then exists j: nat :: UsedFor(s, d, j) && OpenedIn(u, s', t, d, k, j)
      else if exists j: nat :: IsEmpty(s, j) then exists j: nat :: IsEmpty(s, j) && OpenedIn(u, s', t, d, k, j)
      else s' == Goto(u, t, ODone(None))
  {
    var s1 := Next(s, CallOpen(t, d, k));
    var s2 := s.(threads := s.threads[t := OScan(d, k, 0, None)], listLock := Some(t));
    GoList(s, t, d, k);
    s' := ScanAlone(s2, t, d, k, 0, None);
    LeadsJoin(s1, s2, s', t);
    WholeScan(s, s', t, d, k);
  }

  /** What the scan of the whole table gives, in terms of the state before the call. */
  lemma WholeScan(s: State, s': State, t: nat, d: nat, k: Kind)
    requires t in s.threads
    requires ScanGives(s.(threads := s.threads[t := OScan(d, k, 0, None)], listLock := Some(t)), s', t, d, k, 0, None)
    ensures t in s'.threads && s'.threads[t].ODone?
    ensures s'.threads[t].result.Some? <==> exists j: nat :: UsedFor(s, d, j) || IsEmpty(s, j)
    ensures var u := s.(listLock := Some(t));
      if exists j: nat :: UsedFor(s, d, j) then exists j: nat :: UsedFor(s, d, j) && OpenedIn(u, s', t, d, k, j)
      else if exists j: nat :: IsEmpty(s, j) then exists j: nat :: IsEmpty(s, j) && OpenedIn(u, s', t, d, k, j)
      else s' == Goto(u, t, ODone(None))
  {
    var s2, u := s.(threads := s.threads[t := OScan(d, k, 0, None)], listLock := Some(t)), s.(listLock := Some(t));
    forall j: nat ensures UsedFor(s2, d, j) == UsedFor(s, d, j) && IsEmpty(s2, j) == IsEmpty(s, j) {}
    forall j: nat | OpenedIn(s2, s', t, d, k, j) ensures OpenedIn(u, s', t, d, k, j) {
      assert s2.threads[t := ODone(Some(s.nextId))] == s.threads[t := ODone(Some(s.nextId))];
    }
    assert Goto(s2, t, ODone(None)) == Goto(u, t, ODone(None));
  }

  /** Its next step gives the list lock back. */
  lemma OpenEnds(s: State, t: nat)
    requires t in s.threads && s.threads[t].ODone?
    ensures Next(s, Go(t)) == s.(threads := s.threads[t := Idle], listLock := None)
  {
  }

  function Dropped(s: State, t: nat, id: nat, pc: Pc, i: nat, x: Slot): State
    requires i < |s.slots|
  {
    s.(threads := s.threads[t := pc], slots := s.slots[i := x], handles := s.handles - {id}, closer := s.closer - {id})
  }

  lemma GoDrop(s: State, t: nat, id: nat)
    requires t in s.threads && s.threads[t] == CAt(id) && id in s.handles && s.handles[id].slot < |s.slots|
    ensures var i := s.handles[id].slot;
      var refs := s.slots[i].refs - 1;
      Leads(s, Dropped(s, t, id, if refs == 0 then CZero(i) else CUnlock(i), i, s.slots[i].(refs := refs)), t)
  {
    var i := s.handles[id].slot;
    var refs := s.slots[i].refs - 1;
    LeadsOne(s, Dropped(s, t, id, if refs == 0 then CZero(i) else CUnlock(i), i, s.slots[i].(refs := refs)), t);
  }

  lemma GoWipe(s: State, t: nat, i: nat)
    requires t in s.threads && s.threads[t] == CZero(i) && i < |s.slots|
    ensures Leads(s, s.(threads := s.threads[t := CUnlock(i)],
                        slots := s.slots[i := s.slots[i].(kind := Empty, dnode := 0)]), t)
  {
    var s1 := SetSlot(Goto(s, t, CWipe(i)), i, s.slots[i].(kind := Empty));
    var s2 := s.(threads := s.threads[t := CUnlock(i)], slots := s.slots[i := s.slots[i].(kind := Empty, dnode := 0)]);
    LeadsOne(s, s1, t);
    assert s1.threads[t := CUnlock(i)] == s2.threads && s1.slots[i := s2.slots[i]] == s2.slots;
    LeadsOne(s1, s2, t);
    LeadsJoin(s, s1, s2, t);
  }

  lemma GoUnlock(s: State, t: nat, i: nat)
    requires t in s.threads && s.threads[t] == CUnlock(i) && i < |s.slots|
    ensures Leads(s, Locked(s, t, Idle, i, None), t)
  {
    LeadsOne(s, Locked(s, t, Idle, i, None), t);
  }

  lemma GoClose(s: State, t: nat, id: nat)
    requires t in s.threads && s.threads[t] == CWant(id) && id in s.handles && s.handles[id].slot < |s.slots|
    requires s.slots[s.handles[id].slot].lock.None?
    ensures Leads(s, Locked(s, t, CAt(id), s.handles[id].slot, Some(t)), t)
  {
    LeadsOne(s, Locked(s, t, CAt(id), s.handles[id].slot, Some(t)), t);
  }

  /** The first three steps of fs_close. */
  lemma CloseDrops(s: State, t: nat, id: nat)
    requires t in s.threads && s.threads[t].Idle? && Usable(s, id) && s.slots[s.handles[id].slot].lock.None?
    ensures var i := s.handles[id].slot;
      var refs := s.slots[i].refs - 1;
      Leads(Next(s, CallClose(t, id)), s.(handles := s.handles - {id},
        threads := s.threads[t := if refs == 0 then CZero(i) else CUnlock(i)],
        slots := s.slots[i := s.slots[i].(refs := refs, lock := Some(t))]), t)
  {
    var i := s.handles[id].slot;
    var refs := s.slots[i].refs - 1;
    var pc := if refs == 0 then CZero(i) else CUnlock(i);
    var s0 := s.(threads := s.threads[t := CWant(id)], closer := s.closer[id := t]);
    assert Next(s, CallClose(t, id)) == s0;
    var s1 := Locked(s0, t, CAt(id), i, Some(t));
    GoClose(s0, t, id);
    GoDrop(s1, t, id);
    DroppedIs(s, s0, s1, t, id, i, pc, refs);
    LeadsJoin(s0, s1, Dropped(s1, t, id, pc, i, s1.slots[i].(refs := refs)), t);
  }

  lemma DroppedIs(s: State, s0: State, s1: State, t: nat, id: nat, i: nat, pc: Pc, refs: int)
    requires t in s.threads && i < |s.slots| && id !in s.closer
    requires s0 == s.(threads := s.threads[t := CWant(id)], closer := s.closer[id := t])
    requires s1 == Locked(s0, t, CAt(id), i, Some(t))
    ensures Dropped(s1, t, id, pc, i, s1.slots[i].(refs := refs)) == s.(handles := s.handles - {id},
      threads := s.threads[t := pc], slots := s.slots[i := s.slots[i].(refs := refs, lock := Some(t))])
  {
    var s2 := Dropped(s1, t, id, pc, i, s1.slots[i].(refs := refs));
    assert s.closer[id := t] - {id} == s.closer && s2.threads == s.threads[t := pc];
    assert s2.slots == s.slots[i := s.slots[i].(refs := refs, lock := Some(t))];
  }

  /** A thread that closes a handle while its slot is not locked and no other thread moves
      gives up that handle and no other; the slot is emptied exactly if it was the last. */
  lemma CloseAlone(s: State, t: nat, id: nat)
    requires Reachable(s) && t in s.threads && s.threads[t].Idle? && Usable(s, id)
    requires s.slots[s.handles[id].slot].lock.None?
    ensures var i := s.handles[id].slot;
      Leads(Next(s, CallClose(t, id)), s.(handles := s.handles - {id}, slots := s.slots[i :=
        if Ids(s, i) == {id} then Slot(Empty, 0, 0, None) else s.slots[i].(refs := s.slots[i].refs - 1)]), t)
  {
    var i := s.handles[id].slot;
    LastHandle(s, id);
    var s0 := Next(s, CallClose(t, id));
    var refs := s.slots[i].refs - 1;
    CloseDrops(s, t, id);
    var x := s.slots[i].(refs := refs, lock := Some(t));
    var s2 := s.(handles := s.handles - {id}, threads := s.threads[t := if refs == 0 then CZero(i) else CUnlock(i)],
                 slots := s.slots[i := x]);
    if refs == 0 {
      var x3 := x.(kind := Empty, dnode := 0);
      var s3 := s.(handles := s.handles - {id}, threads := s.threads[t := CUnlock(i)], slots := s.slots[i := x3]);
      assert s2.threads[t := CUnlock(i)] == s3.threads && s2.slots[i := x3] == s3.slots;
      GoWipe(s2, t, i);
      LeadsJoin(s0, s2, s3, t);
      LastClosed(s0, s, t, id, i, x3);
    } else {
      LastClosed(s0, s, t, id, i, x);
    }
  }

  /** The count says whether a handle is the last one. */
  lemma LastHandle(s: State, id: nat)
    requires Reachable(s) && id in s.handles
    ensures var i := s.handles[id].slot; i < |s.slots| && (s.slots[i].refs == 1 <==> Ids(s, i) == {id})
  {
    ReachableInv(s);
    var i := s.handles[id].slot;
    assert HandleOk(s, id) && SlotOk(s, i) && id in Ids(s, i);
    OnlyOne(Ids(s, i), id);
  }

  /** The closer unlocks the slot. */
  lemma LastClosed(s0: State, s: State, t: nat, id: nat, i: nat, x: Slot)
    requires t in s.threads && s.threads[t].Idle? && i < |s.slots|
    requires Leads(s0, s.(handles := s.handles - {id}, threads := s.threads[t := CUnlock(i)], slots := s.slots[i := x]),
                   t)
    ensures Leads(s0, s.(handles := s.handles - {id}, slots := s.slots[i := x.(lock := None)]), t)
  {
    var s3 := s.(handles := s.handles - {id}, threads := s.threads[t := CUnlock(i)], slots := s.slots[i := x]);
    GoUnlock(s3, t, i);
    var s4 := Locked(s3, t, Idle, i, None);
    assert s4.threads == s.threads && s4.slots == s.slots[i := x.(lock := None)];
    LeadsJoin(s0, s3, s4, t);
  }

  lemma OnlyOne(ids: set<nat>, id: nat)
    requires id in ids
    ensures |ids| == 1 <==> ids == {id}
  {
    assert |ids| == 1 + |ids - {id}|;
  }

  /** fs_dup adds one handle on the same slot and dnode, and one reference. */
  lemma DupAdds(s: State, t: nat, id: nat)
    requires Reachable(s) && t in s.threads && s.threads[t].Idle? && Usable(s, id)
    ensures var h, s' := s.handles[id], Next(s, CallDup(t, id));
      && s'.handles == s.handles[s.nextId := h] && s.nextId !in s.handles
      && s'.slots == s.slots[h.slot := s.slots[h.slot].(refs := |Ids(s, h.slot)| + 1)]
      && s'.threads == s.threads && s'.listLock == s.listLock && s'.closer == s.closer
  {
    ReachableInv(s);
    assert HandleOk(s, id) && SlotOk(s, s.handles[id].slot) && id in Ids(s, s.handles[id].slot);
    assert s.nextId in s.handles ==> HandleOk(s, s.nextId);
  }

  // ---- no deadlock

  /** The list lock belongs to a thread that is between taking and releasing it. */
  predicate ListHeld(s: State) {
    s.listLock.Some? ==> s.listLock.value in s.threads && HoldsList(s.threads[s.listLock.value])
  }

  predicate SlotHeld(s: State, i: nat) {
    At(s, i).lock.Some? ==>
      At(s, i).lock.value in s.threads && LockedBy(s, s.threads[At(s, i).lock.value]) == Some(i)
  }

  ghost predicate Held(s: State) {
    ListHeld(s) && forall i: nat {:trigger SlotHeld(s, i)} :: SlotHeld(s, i)
  }

  lemma ListHeldNext(s: State, step: Step)
    requires Inv(s) && ListHeld(s)
    ensures ListHeld(Next(s, step))
  {
    if step.t in s.threads {
      assert ThreadOk(s, step.t);
      if step.Go? { ListHeldGo(s, step.t); }
    }
  }

  lemma ListHeldGo(s: State, t: nat)
    requires t in s.threads && ThreadOk(s, t) && ListHeld(s)
    ensures ListHeld(Advance(s, t))
  {
    var u := s.listLock;
    if u.Some? && u.value != t { OthersStay(s, t, u.value); }
  }

  /** After a step of t the lock of slot i is free, or t has it and says so, or it still
      is another thread's. */
  ghost predicate LockFate(s: State, s': State, t: nat, i: nat) {
    || At(s', i).lock.None?
    || (At(s', i).lock == Some(t) && t in s'.threads && LockedBy(s', s'.threads[t]) == Some(i))
    || (At(s', i).lock == At(s, i).lock && At(s, i).lock != Some(t))
  }

  lemma FateOpen(s: State, t: nat, i: nat)
    requires SlotHeld(s, i) && t in s.threads && ThreadOk(s, t) && HoldsList(s.threads[t])
    ensures LockFate(s, Advance(s, t), t, i)
  {
  }

  lemma FateClose(s: State, t: nat, i: nat)
    requires SlotHeld(s, i) && t in s.threads && ThreadOk(s, t) && !HoldsList(s.threads[t])
    ensures LockFate(s, Advance(s, t), t, i)
  {
  }

  lemma OthersStay(s: State, t: nat, u: nat)
    requires t in s.threads && u in s.threads && u != t
    ensures u in Advance(s, t).threads && Advance(s, t).threads[u] == s.threads[u]
  {
  }

  /** The handle another thread is closing is still there. */
  lemma CloserStays(s: State, t: nat, u: nat, id: nat)
    requires Inv(s) && t in s.threads && u in s.threads && u != t && s.threads[u] == CAt(id)
    ensures id in s.handles && id in Advance(s, t).handles && Advance(s, t).handles[id] == s.handles[id]
  {
    assert ThreadOk(s, t) && ThreadOk(s, u) && HandleOk(s, id);
  }

  lemma SlotHeldGo(s: State, t: nat, i: nat)
    requires Inv(s) && SlotHeld(s, i) && t in s.threads
    ensures SlotHeld(Advance(s, t), i)
  {
    assert ThreadOk(s, t);
    if HoldsList(s.threads[t]) { FateOpen(s, t, i); } else { FateClose(s, t, i); }
    if At(s, i).lock.Some? && At(s, i).lock != Some(t) {
      var u := At(s, i).lock.value;
      OthersStay(s, t, u);
      if s.threads[u].CAt? { CloserStays(s, t, u, s.threads[u].id); }
      FateHeld(s, Advance(s, t), t, u, i);
    } else {
      FateHeld(s, Advance(s, t), t, t, i);
    }
  }

  lemma FateHeld(s: State, s': State, t: nat, u: nat, i: nat)
    requires LockFate(s, s', t, i) && u in s'.threads
    requires At(s, i).lock.Some? && At(s, i).lock != Some(t) ==>
      && At(s, i).lock == Some(u) && u in s.threads && LockedBy(s, s.threads[u]) == Some(i)
      && s'.threads[u] == s.threads[u]
      && (s.threads[u].CAt? ==>
            var id := s.threads[u].id;
            id in s.handles && id in s'.handles && s'.handles[id] == s.handles[id])
    ensures SlotHeld(s', i)
  {
  }

  lemma SlotHeldCall(s: State, step: Step, i: nat)
    requires Inv(s) && SlotHeld(s, i) && !step.Go?
    ensures SlotHeld(Next(s, step), i)
  {
    if At(s, i).lock.Some? { assert ThreadOk(s, At(s, i).lock.value); }
    assert s.nextId in s.handles ==> HandleOk(s, s.nextId);
  }

  lemma HeldNext(s: State, step: Step)
    requires Inv(s) && Held(s)
    ensures Held(Next(s, step))
  {
    ListHeldNext(s, step);
    forall i: nat ensures SlotHeld(Next(s, step), i) {
      assert SlotHeld(s, i);
      if !step.Go? {
        SlotHeldCall(s, step, i);
      } else if step.t in s.threads {
        SlotHeldGo(s, step.t, i);
      }
    }
  }

  lemma {:induction false} HeldRun(s: State, steps: seq<Step>)
    requires Inv(s) && Held(s)
    ensures Held(Run(s, steps))
    decreases steps
  {
    if steps != [] {
      NextKeeps(s, steps[0]);
      HeldNext(s, steps[0]);
      HeldRun(Next(s, steps[0]), steps[1..]);
    }
  }

  /** The locks thread t is waiting for, if any: that of the list or that of a slot. */
  predicate Waits(s: State, t: nat)
    requires t in s.threads
  {
    match s.threads[t]
    case OWant(_, _) => s.listLock.Some?
    case OScan(_, _, i, _) => At(s, i).lock.Some?
    case CWant(id) => id in s.handles && At(s, s.handles[id].slot).lock.Some?
    case _ => false
  }

  /** A thread in a call moves on unless it waits for a lock. */
  lemma MovesOn(s: State, t: nat)
    requires Inv(s) && t in s.threads && !s.threads[t].Idle? && !Waits(s, t)
    ensures Next(s, Go(t)).threads[t] != s.threads[t]
  {
    assert ThreadOk(s, t);
    if s.threads[t].CWant? { assert HandleOk(s, s.threads[t].id); }
  }

  /** The holder of a slot lock does not wait. */
  lemma HolderMoves(s: State, i: nat)
    requires Inv(s) && Held(s) && At(s, i).lock.Some?
    ensures var u := At(s, i).lock.value; u in s.threads && !s.threads[u].Idle? && !Waits(s, u)
  {
    assert SlotHeld(s, i);
  }

  lemma ReachableHeld(s: State)
    requires Reachable(s)
    ensures Inv(s) && Held(s)
  {
    ReachableInv(s);
    var s0: State, steps: seq<Step> :| Init(s0) && s == Run(s0, steps);
    assert Held(s0) by { forall i: nat ensures SlotHeld(s0, i) {} }
    forall i | 0 <= i < |s0.slots| ensures SlotOk(s0, i) { assert Ids(s0, i) == {}; }
    HeldRun(s0, steps);
  }

  /** When every thread is outside fs_open and fs_close, no lock is held. */
  lemma AllIdle(s: State)
    requires Reachable(s) && forall t :: t in s.threads ==> s.threads[t].Idle?
    ensures s.listLock.None? && NoSlotLocked(s)
  {
    ReachableHeld(s);
    forall i | 0 <= i < |s.slots| ensures s.slots[i].lock.None? { assert SlotHeld(s, i); }
  }

  /** As long as a call is under way, some thread can go on. */
  lemma NoDeadlock(s: State, t: nat) returns (u: nat)
    requires Reachable(s) && t in s.threads && !s.threads[t].Idle?
    ensures u in s.threads && Next(s, Go(u)).threads[u] != s.threads[u]
  {
    ReachableHeld(s);
    u := t;
    if Waits(s, u) && s.threads[u].OWant? {
      u := s.listLock.value;
    }
    if Waits(s, u) {
      var i := if s.threads[u].OScan? then s.threads[u].i else s.handles[s.threads[u].id].slot;
      HolderMoves(s, i);
      u := At(s, i).lock.value;
    }
    MovesOn(s, u);
  }
}
