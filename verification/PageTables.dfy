/** The four-level page tables of kernel/src/mem/vmm.c (section 4.5 of the Intel SDM,
    volume 3A).

    A table is the frame that holds its 512 entries; pages and frames are page numbers.
    kalloc is a set of free frames.  Ghost state gives every table its level, the part
    of the address space it serves, its root and the one slot that points to it. */
module PageTables {
  import opened Prelude

  const ENTRIES: nat := 512
  const PAGES: nat := 0x10_0000_0000         // 48-bit addresses
  const USER_PAGES: nat := 0x4_0000_0000     // USERSPACE_VA_MAX / PAGE_SIZE
  const MIN_PAGE: nat := 0x400               // USERSPACE_VA_MIN / PAGE_SIZE
  const FRAMES: nat := 0x100_0000_0000       // what PTE_ADDR_MASK can hold
  const PAGE: nat := 4096

  datatype Rights = Rights(writable: bool, user: bool, noExec: bool)

  datatype Pte = Pte(present: bool, huge: bool, rights: Rights, frame: nat)

  /** A frame and what may be done with it. */
  datatype Mapping = Mapping(frame: nat, rights: Rights)

  type Tables = map<nat, seq<Pte>>

  const FULL := Rights(true, true, false)

  /** Access needs W and U at every level, and execution no XD at any. */
  function Narrow(a: Rights, b: Rights): (r: Rights) {
    Rights(a.writable && b.writable, a.user && b.user, a.noExec || b.noExec)
  }

  function Zeros(): (s: seq<Pte>)
    ensures |s| == ENTRIES && forall i :: 0 <= i < ENTRIES ==> !s[i].present
  {
    seq(ENTRIES, _ => Pte(false, false, Rights(false, false, false), 0))
  }

  // ------------------------------------------------------------- addresses

  /** The page number without the indexes of the levels below l. */
  function Prefix(v: nat, l: nat): (p: nat) {
    if l == 0 then v else Prefix(v, l - 1) / ENTRIES
  }

  /** PTE_INDEX_FROM_VA */
  function Index(v: nat, l: nat): (i: nat)
    ensures i < ENTRIES && Prefix(v, l) == Prefix(v, l + 1) * ENTRIES + i
  {
    Prefix(v, l) % ENTRIES
  }

  /** The pages one entry of level l covers. */
  function Span(l: nat): (n: nat)
    ensures n > 0
  {
    if l == 0 then 1 else ENTRIES * Span(l - 1)
  }

  lemma TopPrefix(v: nat)
    requires v < PAGES
    ensures Prefix(v, 4) == 0
  {
    assert Prefix(v, 1) < 0x800_0000;
    assert Prefix(v, 2) < 0x4_0000;
    assert Prefix(v, 3) < 0x200;
  }

  // ------------------------------------------------------------- translation

  /** What the hardware meets on its way to page v: the frame and the rights of the last
      entry, the rights the inner entries leave, and whether no huge entry is on the way. */
  datatype Look = Look(found: Option<Mapping>, inner: Rights, plain: bool)

  predicate Whole(mem: Tables, t: nat) {
    t in mem && |mem[t]| == ENTRIES
  }

  function Trace(mem: Tables, t: nat, l: nat, v: nat, acc: Rights): (k: Look)
    decreases l
  {
    if !Whole(mem, t) then Look(None, acc, false) else
    var e := mem[t][Index(v, l)];
    if !e.present then Look(None, acc, true)
    else if l == 0 then Look(Some(Mapping(e.frame, e.rights)), acc, true)
    else if e.huge then Look(Some(Mapping(e.frame + v % Span(l), e.rights)), acc, false)
    else Trace(mem, e.frame, l - 1, v, Narrow(acc, e.rights))
  }

  /** The walk from a root. */
  function Meet(mem: Tables, root: nat, v: nat): (k: Look) {
    Trace(mem, root, 3, v, FULL)
  }

  /** The flat map a root stands for. */
  function Translate(mem: Tables, root: nat, v: nat): (m: Option<Mapping>) {
    var k := Meet(mem, root, v);
    if k.found.None? then None else Some(Mapping(k.found.value.frame, Narrow(k.inner, k.found.value.rights)))
  }

  /** The table of level k that the walk for v from table t of level l comes to. */
  function Reach(mem: Tables, t: nat, l: nat, v: nat, k: nat): (u: Option<nat>)
    decreases l
  {
    if l <= k then Some(t)
    else if !Whole(mem, t) then None else
    var e := mem[t][Index(v, l)];
    if e.present && !e.huge then Reach(mem, e.frame, l - 1, v, k) else None
  }

  // ------------------------------------------------------------- the shape

  /** The place of a table. */
  datatype Place = Place(level: nat, base: nat, root: nat, parent: nat, slot: nat)

  type Places = map<nat, Place>

  function Child(p: Place, t: nat, i: nat): Place
    requires p.level > 0
  {
    Place(p.level - 1, p.base * ENTRIES + i, p.root, t, i)
  }

  /** Entry i of t leads nowhere, to a frame, or to a table of s that knows its place. */
  ghost predicate SlotOk(mem: Tables, at: Places, s: set<nat>, t: nat, i: nat)
    requires Whole(mem, t) && t in at && i < ENTRIES
  {
    var e := mem[t][i];
    e.present && !e.huge && at[t].level > 0 ==> e.frame in s && e.frame in at && at[e.frame] == Child(at[t], t, i)
  }

  ghost predicate TableOk(mem: Tables, at: Places, s: set<nat>, t: nat) {
    && Whole(mem, t) && t in at && at[t].level <= 3
    && (at[t].level == 3 ==> at[t].base == 0 && at[t].root == t)
    && forall i: nat :: i < ENTRIES ==> SlotOk(mem, at, s, t, i)
  }

  /** The tables of s are trees: every one is where the single slot pointing to it says. */
  ghost predicate Forest(mem: Tables, at: Places, s: set<nat>) {
    forall t {:trigger TableOk(mem, at, s, t)} :: t in s ==> TableOk(mem, at, s, t)
  }

  /** t is a table of s of level l on the way to v. */
  ghost predicate OnPath(at: Places, s: set<nat>, t: nat, l: nat, v: nat) {
    t in s && t in at && at[t].level == l && at[t].base == Prefix(v, l + 1)
  }

  lemma NextOnPath(mem: Tables, at: Places, s: set<nat>, t: nat, l: nat, v: nat)
    requires Forest(mem, at, s) && OnPath(at, s, t, l, v)
    ensures Whole(mem, t) && (l == 3 ==> at[t].root == t)
    ensures var e := mem[t][Index(v, l)];
      l > 0 && e.present && !e.huge ==> OnPath(at, s, e.frame, l - 1, v) && at[e.frame] == Child(at[t], t, Index(v, l))
  {
    assert TableOk(mem, at, s, t);
    assert SlotOk(mem, at, s, t, Index(v, l));
  }

  /** A walk stays inside the tables of its root and follows the page number. */
  lemma {:induction false} ReachPlace(mem: Tables, at: Places, s: set<nat>, t: nat, l: nat, v: nat, k: nat)
    requires Forest(mem, at, s) && OnPath(at, s, t, l, v) && k <= l && Reach(mem, t, l, v, k).Some?
    ensures var u := Reach(mem, t, l, v, k).value; OnPath(at, s, u, k, v) && at[u].root == at[t].root
    decreases l
  {
    NextOnPath(mem, at, s, t, l, v);
    if l > k { ReachPlace(mem, at, s, mem[t][Index(v, l)].frame, l - 1, v, k); }
  }

  lemma RootOnPath(mem: Tables, at: Places, s: set<nat>, root: nat, v: nat)
    requires Forest(mem, at, s) && root in s && root in at && at[root].level == 3 && v < PAGES
    ensures OnPath(at, s, root, 3, v) && at[root].root == root
  {
    TopPrefix(v);
    assert TableOk(mem, at, s, root);
  }

  /** No table is reached from two roots, nor on two levels, nor for two parts of the
      address space. */
  lemma NoSharedTable(mem: Tables, at: Places, s: set<nat>, r1: nat, v1: nat, k1: nat, r2: nat, v2: nat, k2: nat)
    requires Forest(mem, at, s) && r1 in s && r2 in s && r1 in at && r2 in at && at[r1].level == at[r2].level == 3
    requires v1 < PAGES && v2 < PAGES && k1 <= 3 && k2 <= 3
    requires Reach(mem, r1, 3, v1, k1).Some? && Reach(mem, r1, 3, v1, k1) == Reach(mem, r2, 3, v2, k2)
    ensures r1 == r2 && k1 == k2 && Prefix(v1, k1 + 1) == Prefix(v2, k2 + 1)
  {
    RootOnPath(mem, at, s, r1, v1);
    RootOnPath(mem, at, s, r2, v2);
    ReachPlace(mem, at, s, r1, 3, v1, k1);
    ReachPlace(mem, at, s, r2, 3, v2, k2);
  }

  /** Distinct pages use distinct entries. */
  lemma DistinctSlots(mem: Tables, at: Places, s: set<nat>, r1: nat, v1: nat, r2: nat, v2: nat)
    requires Forest(mem, at, s) && r1 in s && r2 in s && r1 in at && r2 in at && at[r1].level == at[r2].level == 3
    requires v1 < PAGES && v2 < PAGES
    requires Reach(mem, r1, 3, v1, 0).Some? && Reach(mem, r1, 3, v1, 0) == Reach(mem, r2, 3, v2, 0)
    requires Index(v1, 0) == Index(v2, 0)
    ensures r1 == r2 && v1 == v2
  {
    NoSharedTable(mem, at, s, r1, v1, 0, r2, v2, 0);
    assert v1 == Prefix(v1, 1) * ENTRIES + Index(v1, 0) && v2 == Prefix(v2, 1) * ENTRIES + Index(v2, 0);
  }

  /** What the entry at a reached table says about the whole walk. */
  lemma {:induction false} ReachTrace(mem: Tables, t: nat, l: nat, v: nat, k: nat, acc: Rights)
    requires k <= l && Reach(mem, t, l, v, k).Some? && Whole(mem, Reach(mem, t, l, v, k).value)
    ensures var e, look := mem[Reach(mem, t, l, v, k).value][Index(v, k)], Trace(mem, t, l, v, acc);
      && (!e.present ==> look.found == None)
      && (k > 0 && e.present && look.plain ==> !e.huge)
      && (k == 0 ==> look == Leafed(look, e))
    decreases l
  {
    if l > k {
      var e := mem[t][Index(v, l)];
      ReachTrace(mem, e.frame, l - 1, v, k, Narrow(acc, e.rights));
    }
  }

  /** The walk with its last entry replaced by e. */
  function Leafed(look: Look, e: Pte): Look {
    Look(if e.present then Some(Mapping(e.frame, e.rights)) else None, look.inner, true)
  }

  lemma {:induction false} ReachNext(mem: Tables, t: nat, l: nat, v: nat, k: nat)
    requires k < l && Reach(mem, t, l, v, k + 1).Some? && Whole(mem, Reach(mem, t, l, v, k + 1).value)
    ensures var e := mem[Reach(mem, t, l, v, k + 1).value][Index(v, k + 1)];
      Reach(mem, t, l, v, k) == if e.present && !e.huge then Some(e.frame) else None
    decreases l
  {
    if l > k + 1 { ReachNext(mem, mem[t][Index(v, l)].frame, l - 1, v, k); }
  }

  // ------------------------------------------------------------- frames

  ghost predicate Agree(mem: Tables, mem': Tables, s: set<nat>) {
    forall t {:trigger mem'[t]} {:trigger mem[t]} :: t in s ==> t in mem && t in mem' && mem'[t] == mem[t]
  }

  /** A walk depends only on the tables of its own forest. */
  lemma {:induction false} TraceFrame(mem: Tables, mem': Tables, at: Places, s: set<nat>, t: nat, l: nat, v: nat,
                                      acc: Rights)
    requires Forest(mem, at, s) && t in s && t in at && at[t].level == l && Agree(mem, mem', s)
    ensures Trace(mem', t, l, v, acc) == Trace(mem, t, l, v, acc)
    decreases l
  {
    assert TableOk(mem, at, s, t) && SlotOk(mem, at, s, t, Index(v, l));
    var e := mem[t][Index(v, l)];
    if e.present && l > 0 && !e.huge { TraceFrame(mem, mem', at, s, e.frame, l - 1, v, Narrow(acc, e.rights)); }
  }

  /** A forest stays one when its tables are left alone, whatever else appears. */
  lemma ForestFrame(mem: Tables, at: Places, mem': Tables, at': Places, s: set<nat>)
    requires Forest(mem, at, s) && Agree(mem, mem', s) && forall t :: t in s ==> t in at && t in at' && at'[t] == at[t]
    ensures Forest(mem', at', s)
  {
    forall t | t in s ensures TableOk(mem', at', s, t) {
      assert TableOk(mem, at, s, t);
      forall i: nat | i < ENTRIES ensures SlotOk(mem', at', s, t, i) { assert SlotOk(mem, at, s, t, i); }
    }
  }

  lemma ForestJoin(mem: Tables, at: Places, s: set<nat>, s': set<nat>)
    requires Forest(mem, at, s) && Forest(mem, at, s')
    ensures Forest(mem, at, s + s')
  {
    forall t | t in s + s' ensures TableOk(mem, at, s + s', t) {
      var own := if t in s then s else s';
      assert TableOk(mem, at, own, t);
      forall i: nat | i < ENTRIES ensures SlotOk(mem, at, s + s', t, i) { assert SlotOk(mem, at, own, t, i); }
    }
  }

  // ------------------------------------------------------------- writing a leaf

  function WithEntry(mem: Tables, t: nat, i: nat, e: Pte): (r: Tables)
    requires Whole(mem, t) && i < ENTRIES
  {
    mem[t := mem[t][i := e]]
  }

  lemma LeafForest(mem: Tables, at: Places, s: set<nat>, u: nat, i: nat, e: Pte)
    requires Forest(mem, at, s) && u in s && u in at && at[u].level == 0 && Whole(mem, u) && i < ENTRIES
    ensures Forest(WithEntry(mem, u, i, e), at, s)
  {
    var mem' := WithEntry(mem, u, i, e);
    forall t | t in s ensures TableOk(mem', at, s, t) {
      assert TableOk(mem, at, s, t);
      forall j: nat | j < ENTRIES ensures SlotOk(mem', at, s, t, j) { assert SlotOk(mem, at, s, t, j); }
    }
  }

  /** A new leaf entry changes the walks that end in it and no others. */
  lemma {:induction false} LeafTrace(mem: Tables, at: Places, s: set<nat>, u: nat, i: nat, e: Pte, t: nat, l: nat,
                                     v: nat, acc: Rights)
    requires Forest(mem, at, s) && u in s && u in at && at[u].level == 0 && Whole(mem, u) && i < ENTRIES
    requires t in s && t in at && at[t].level == l
    ensures Trace(WithEntry(mem, u, i, e), t, l, v, acc) ==
      if Reach(mem, t, l, v, 0) == Some(u) && Index(v, 0) == i
        then Leafed(Trace(mem, t, l, v, acc), e) else Trace(mem, t, l, v, acc)
    decreases l
  {
    assert TableOk(mem, at, s, t) && SlotOk(mem, at, s, t, Index(v, l));
    if l > 0 {
      var d := mem[t][Index(v, l)];
      if d.present && !d.huge { LeafTrace(mem, at, s, u, i, e, d.frame, l - 1, v, Narrow(acc, d.rights)); }
    }
  }

  // ------------------------------------------------------------- adding a table

  function InnerEntry(c: nat): Pte {
    Pte(true, false, FULL, c)
  }

  /** walk puts the zeroed table c into entry i of table p. */
  function Added(mem: Tables, p: nat, i: nat, c: nat): (r: Tables)
    requires Whole(mem, p) && i < ENTRIES && p != c
  {
    WithEntry(mem[c := Zeros()], p, i, InnerEntry(c))
  }

  /** A missing entry that may be filled with a new table. */
  ghost predicate CanAdd(mem: Tables, at: Places, s: set<nat>, p: nat, i: nat, c: nat) {
    && Forest(mem, at, s) && p in s && p in at && at[p].level > 0 && Whole(mem, p) && i < ENTRIES
    && !mem[p][i].present && c !in s && p != c
  }

  lemma AddForest(mem: Tables, at: Places, s: set<nat>, p: nat, i: nat, c: nat)
    requires CanAdd(mem, at, s, p, i, c)
    ensures Forest(Added(mem, p, i, c), at[c := Child(at[p], p, i)], s + {c})
  {
    var mem', at', s' := Added(mem, p, i, c), at[c := Child(at[p], p, i)], s + {c};
    assert TableOk(mem, at, s, p);
    forall t | t in s' ensures TableOk(mem', at', s', t) {
      if t == c {
        forall j: nat | j < ENTRIES ensures SlotOk(mem', at', s', c, j) {}
      } else {
        assert TableOk(mem, at, s, t);
        forall j: nat | j < ENTRIES ensures SlotOk(mem', at', s', t, j) { assert SlotOk(mem, at, s, t, j); }
      }
    }
  }

  /** A new empty table changes no walk. */
  lemma {:induction false} AddTrace(mem: Tables, at: Places, s: set<nat>, p: nat, i: nat, c: nat, t: nat, l: nat,
                                    v: nat, acc: Rights)
    requires CanAdd(mem, at, s, p, i, c) && t in s && t in at && at[t].level == l
    ensures Trace(Added(mem, p, i, c), t, l, v, acc) == Trace(mem, t, l, v, acc)
    decreases l
  {
    var mem' := Added(mem, p, i, c);
    assert TableOk(mem, at, s, t) && SlotOk(mem, at, s, t, Index(v, l));
    var e := mem[t][Index(v, l)];
    if t == p && Index(v, l) == i {
      assert mem'[t][Index(v, l)] == InnerEntry(c) && mem'[c] == Zeros();
      assert Narrow(acc, FULL) == acc;
      assert !mem'[c][Index(v, l - 1)].present;
    } else if e.present && l > 0 && !e.huge {
      AddTrace(mem, at, s, p, i, c, e.frame, l - 1, v, Narrow(acc, e.rights));
    }
  }

  /** Nor does it change where a walk is on the levels above. */
  lemma {:induction false} AddReach(mem: Tables, at: Places, s: set<nat>, p: nat, i: nat, c: nat, t: nat, l: nat,
                                    v: nat)
    requires CanAdd(mem, at, s, p, i, c) && t in s && t in at && at[t].level == l && at[p].level <= l
    ensures Reach(Added(mem, p, i, c), t, l, v, at[p].level) == Reach(mem, t, l, v, at[p].level)
    decreases l
  {
    assert TableOk(mem, at, s, t) && SlotOk(mem, at, s, t, Index(v, l));
    var e := mem[t][Index(v, l)];
    if l > at[p].level && e.present && !e.huge { AddReach(mem, at, s, p, i, c, e.frame, l - 1, v); }
  }

  // ------------------------------------------------------------- the operations

  ghost predicate IsRoot(at: Places, s: set<nat>, r: nat) {
    r in s && r in at && at[r].level == 3
  }

  /** No huge entry is on the way to v, if v is in the user half. */
  ghost predicate PlainAt(mem: Tables, root: nat, v: nat) {
    MIN_PAGE <= v < USER_PAGES ==> Meet(mem, root, v).plain
  }

  ghost predicate PlainOn(mem: Tables, root: nat, first: nat, n: nat) {
    forall v {:trigger PlainAt(mem, root, v)} :: first <= v < first + n ==> PlainAt(mem, root, v)
  }

  /** No huge entry in the user half of a root. */
  ghost predicate Small(mem: Tables, root: nat) {
    forall v: nat {:trigger PlainAt(mem, root, v)} :: PlainAt(mem, root, v)
  }

  ghost predicate SameWalks(mem: Tables, mem': Tables, at: Places, s: set<nat>) {
    forall r, v {:trigger Meet(mem', r, v)} :: IsRoot(at, s, r) && 0 <= v ==> Meet(mem', r, v) == Meet(mem, r, v)
  }

  /** There may be more tables, but the old ones are in their places and no new one is
      a root. */
  ghost predicate Grown(at: Places, s: set<nat>, at': Places, s': set<nat>) {
    && s <= s' && (forall t :: t in s ==> t in at && t in at' && at'[t] == at[t])
    && (forall r {:trigger IsRoot(at', s', r)} :: IsRoot(at', s', r) ==> r in s)
  }

  lemma SameWalksAdded(mem: Tables, at: Places, s: set<nat>, p: nat, i: nat, c: nat)
    requires CanAdd(mem, at, s, p, i, c)
    ensures SameWalks(mem, Added(mem, p, i, c), at, s)
  {
    forall r, v: nat | IsRoot(at, s, r) ensures Meet(Added(mem, p, i, c), r, v) == Meet(mem, r, v) {
      AddTrace(mem, at, s, p, i, c, r, 3, v, FULL);
    }
  }

  lemma GrownTwice(mem: Tables, at: Places, s: set<nat>, mem1: Tables, at1: Places, s1: set<nat>, mem': Tables,
                   at': Places, s': set<nat>)
    requires Grown(at, s, at1, s1) && Grown(at1, s1, at', s') && SameWalks(mem, mem1, at, s)
    requires SameWalks(mem1, mem', at1, s1)
    ensures Grown(at, s, at', s') && SameWalks(mem, mem', at, s)
  {
    forall t | t in s ensures t in at && t in at' && at'[t] == at[t] { assert t in s1 && at1[t] == at[t]; }
    forall r | IsRoot(at', s', r) ensures r in s { assert r in s1 && at'[r] == at1[r] && IsRoot(at1, s1, r); }
    forall r, v: nat | IsRoot(at, s, r) ensures Meet(mem', r, v) == Meet(mem, r, v) {
      assert at1[r] == at[r] && IsRoot(at1, s1, r);
      assert Meet(mem1, r, v) == Meet(mem, r, v);
    }
  }

  /** The tables walk has to add between table t of level l and the entry for page v. */
  ghost function Lacking(mem: Tables, t: nat, l: nat, v: nat): (n: nat)
    decreases l
  {
    if l == 0 || !Whole(mem, t) then 0 else
    var e := mem[t][Index(v, l)];
    if !e.present then l else if e.huge then 0 else Lacking(mem, e.frame, l - 1, v)
  }

  /** A walk lacks what is missing below the table it comes to. */
  lemma {:induction false} ReachLacking(mem: Tables, t: nat, l: nat, v: nat, k: nat)
    requires k <= l && Reach(mem, t, l, v, k).Some?
    ensures Lacking(mem, t, l, v) == Lacking(mem, Reach(mem, t, l, v, k).value, k, v)
    decreases l
  {
    if l > k { ReachLacking(mem, mem[t][Index(v, l)].frame, l - 1, v, k); }
  }

  /** For every frame taken one table less is missing on the way to v. */
  ghost predicate Spent(mem: Tables, free: nat, mem': Tables, free': nat, root: nat, v: nat) {
    free + Lacking(mem', root, 3, v) == free' + Lacking(mem, root, 3, v)
  }

  datatype Found = Slot(table: nat) | Missing | OutOfRange

  datatype Outcome = Done | NoMemory | Panic

  class AddressSpaces {
    var mem: Tables
    var free: set<nat>
    ghost var at: Places
    ghost var tables: set<nat>

    ghost predicate Valid()
      reads this
    {
      Forest(mem, at, tables) && tables <= mem.Keys && mem.Keys <= at.Keys && free !! mem.Keys
      && forall f :: f in free ==> f < FRAMES
    }

    method Kalloc() returns (c: Option<nat>)
      modifies this`free
      ensures Card(free) == if c.None? then Card(old(free)) else Card(old(free)) - 1
      ensures c.None? ==> old(free) == {} && free == {} && Card(free) == 0
      ensures c.Some? ==> c.value in old(free) && free == old(free) - {c.value}
    {
      if free == {} { return None; }
      var f :| f in free;
      CardLess(free, f);
      free := free - {f};
      c := Some(f);
    }

    /** A zeroed table for the missing entry i of table p. */
    method AddTable(p: nat, i: nat) returns (c: Option<nat>)
      requires Valid() && p in tables && p in at && at[p].level > 0 && Whole(mem, p) && i < ENTRIES
      requires !mem[p][i].present
      modifies this
      ensures Card(free) == if c.None? then 0 else Card(old(free)) - 1
      ensures Valid() && (c.None? ==>
        free == {} && mem == old(mem) && at == old(at) && tables == old(tables) && free == old(free))
      ensures c.Some? ==>
        && c.value in old(free) && CanAdd(old(mem), old(at), old(tables), p, i, c.value)
        && mem == Added(old(mem), p, i, c.value)
      ensures c.Some? ==>
        && at == old(at)[c.value := Child(old(at)[p], p, i)]
        && tables == old(tables) + {c.value} && free == old(free) - {c.value}
    {
      c := Kalloc();
      if c.None? { return; }
      AddForest(mem, at, tables, p, i, c.value);
      mem := Added(mem, p, i, c.value);
      at := at[c.value := Child(at[p], p, i)];
      tables := tables + {c.value};
    }

    /** One level of walk: from table t of level l + 1 to the next. */
    method Descend(root: nat, v: nat, t: nat, l: nat, alloc: bool) returns (next: Option<nat>)
      requires Valid() && IsRoot(at, tables, root) && v < PAGES && Meet(mem, root, v).plain
      requires l < 3 && Reach(mem, root, 3, v, l + 1) == Some(t)
      modifies this
      ensures Valid() && Grown(old(at), old(tables), at, tables) && SameWalks(old(mem), mem, old(at), old(tables))
      ensures next.Some? ==> Reach(mem, root, 3, v, l) == next
      ensures next.None? ==> if alloc
        then free == {} else Meet(mem, root, v).found == None && Reach(mem, root, 3, v, 0) == None
      ensures next.None? || !alloc ==> mem == old(mem) && at == old(at) && tables == old(tables)
      ensures Spent(old(mem), Card(old(free)), mem, Card(free), root, v)
      ensures next.None? && alloc ==> Card(free) == 0 < Lacking(mem, root, 3, v)
      ensures tables <= old(tables) + old(free) && free == old(free) - tables
      ensures mem.Keys == old(mem.Keys) + tables
    {
      RootOnPath(mem, at, tables, root, v);
      ReachPlace(mem, at, tables, root, 3, v, l + 1);
      NextOnPath(mem, at, tables, t, l + 1, v);
      ReachTrace(mem, root, 3, v, l + 1, FULL);
      var i := Index(v, l + 1);
      var e := mem[t][i];
      ReachNext(mem, root, 3, v, l);
      ReachLacking(mem, root, 3, v, l + 1);
      if e.present {
        next := Some(e.frame);
      } else if alloc {
        next := AddTable(t, i);
        if next.Some? {
          SameWalksAdded(old(mem), old(at), old(tables), t, i, next.value);
          AddReach(old(mem), old(at), old(tables), t, i, next.value, root, 3, v);
          ReachNext(mem, root, 3, v, l);
          ReachLacking(mem, root, 3, v, l);
        }
      } else {
        next := None;
        ReachNone(mem, root, 3, v, l, 0);
      }
    }

    /** walk, for addresses of the user half */
    method Walk(root: nat, va: nat, alloc: bool) returns (r: Found)
      requires Valid() && IsRoot(at, tables, root) && PlainAt(mem, root, va / PAGE)
      modifies this
      ensures Valid() && Grown(old(at), old(tables), at, tables) && SameWalks(old(mem), mem, old(at), old(tables))
      ensures r.OutOfRange? <==> !(MIN_PAGE <= va / PAGE < USER_PAGES)
      ensures r.Slot? ==> Reach(mem, root, 3, va / PAGE, 0) == Some(r.table)
      ensures r.Missing? ==> if alloc then free == {} else Reach(mem, root, 3, va / PAGE, 0) == None
      ensures r.Missing? && !alloc ==> Meet(mem, root, va / PAGE).found == None
      ensures r.Slot? ==> Lacking(mem, root, 3, va / PAGE) == 0
      ensures r.Missing? && alloc ==> Card(free) == 0 < Lacking(mem, root, 3, va / PAGE)
      ensures Spent(old(mem), Card(old(free)), mem, Card(free), root, va / PAGE)
      ensures r.OutOfRange? || !alloc ==> mem == old(mem) && at == old(at) && tables == old(tables)
      ensures tables <= old(tables) + old(free) && free == old(free) - tables
      ensures mem.Keys == old(mem.Keys) + tables
    {
      if va >= USER_PAGES * PAGE || va < MIN_PAGE * PAGE { return OutOfRange; }
      var v := va / PAGE;
      var t, level := root, 3;
      while level > 0
        invariant 0 <= level <= 3 && Valid() && Grown(old(at), old(tables), at, tables)
        invariant SameWalks(old(mem), mem, old(at), old(tables)) && Reach(mem, root, 3, v, level) == Some(t)
        invariant !alloc ==> mem == old(mem) && at == old(at) && tables == old(tables)
        invariant Spent(old(mem), Card(old(free)), mem, Card(free), root, v)
        invariant tables <= old(tables) + old(free) && free == old(free) - tables && mem.Keys == old(mem.Keys) + tables
      {
        ghost var mem1, at1, tables1 := mem, at, tables;
        assert Meet(mem, root, v) == Meet(old(mem), root, v);
        var next := Descend(root, v, t, level - 1, alloc);
        GrownTwice(old(mem), old(at), old(tables), mem1, at1, tables1, mem, at, tables);
        if next.None? { return Missing; }
        t, level := next.value, level - 1;
      }
      ReachLacking(mem, root, 3, v, 0);
      r := Slot(t);
    }

    /** The frame and the rights in the entry for va, if it is there and present. */
    method Find(root: nat, va: nat) returns (m: Option<Mapping>)
      requires Valid() && IsRoot(at, tables, root) && PlainAt(mem, root, va / PAGE)
      requires MIN_PAGE <= va / PAGE < USER_PAGES
      modifies this
      ensures mem == old(mem) && at == old(at) && tables == old(tables) && free == old(free)
      ensures m == Meet(mem, root, va / PAGE).found
    {
      var w := Walk(root, va, false);
      assert free == old(free);
      if w.Missing? { return None; }
      var e := SlotEntry(root, va / PAGE, w.table);
      m := if e.present then Some(Mapping(e.frame, e.rights)) else None;
    }

    /** vmm_walkaddr: the address of the frame, or 0. */
    method WalkAddr(root: nat, va: nat, user: bool) returns (r: Outcome, pa: nat)
      requires Valid() && IsRoot(at, tables, root) && PlainAt(mem, root, va / PAGE)
      modifies this
      ensures mem == old(mem) && at == old(at) && tables == old(tables) && free == old(free)
      ensures if va < MIN_PAGE * PAGE then r.Panic? else r.Done?
      ensures va >= USER_PAGES * PAGE ==> pa == 0
      ensures r.Done? && va < USER_PAGES * PAGE ==>
        var m := Meet(mem, root, va / PAGE).found;
        pa == if m.Some? && m.value.rights.user == user then m.value.frame * PAGE else 0
    {
      if va >= USER_PAGES * PAGE { return Done, 0; }
      if va < MIN_PAGE * PAGE { return Panic, 0; }
      var m := Find(root, va);
      return Done, if m.Some? && m.value.rights.user == user then m.value.frame * PAGE else 0;
    }

    /** The entry that decides about page v. */
    method SlotEntry(root: nat, v: nat, t: nat) returns (e: Pte)
      requires Valid() && IsRoot(at, tables, root) && v < PAGES && Reach(mem, root, 3, v, 0) == Some(t)
      ensures OnPath(at, tables, t, 0, v) && Whole(mem, t) && e == mem[t][Index(v, 0)]
      ensures Meet(mem, root, v) == Leafed(Meet(mem, root, v), e)
    {
      RootOnPath(mem, at, tables, root, v);
      ReachPlace(mem, at, tables, root, 3, v, 0);
      NextOnPath(mem, at, tables, t, 0, v);
      ReachTrace(mem, root, 3, v, 0, FULL);
      e := mem[t][Index(v, 0)];
    }

    /** One turn of the loop of vmm_map_pages: a frame for one page. */
    method MapOne(root: nat, v: nat, frame: nat, rights: Rights) returns (r: Outcome)
      requires Valid() && IsRoot(at, tables, root) && PlainAt(mem, root, v)
      modifies this
      ensures Valid() && Grown(old(at), old(tables), at, tables)
      ensures Mapped(old(mem), mem, old(at), old(tables), root, v, if r.Done? then [frame] else [], rights)
      ensures r.Done? ==> Vacant(old(mem), root, v)
      ensures r.NoMemory? <==> MIN_PAGE <= v < USER_PAGES && Card(old(free)) < Lacking(old(mem), root, 3, v)
      ensures r.NoMemory? ==> free == {} && Lacking(mem, root, 3, v) > 0
      ensures r.Panic? ==> !Vacant(old(mem), root, v)
      ensures tables <= old(tables) + old(free) && free == old(free) - tables
      ensures mem.Keys == old(mem.Keys) + tables
    {
      assert v * PAGE / PAGE == v;
      var w := Walk(root, v * PAGE, true);
      MappedNone(old(mem), mem, old(at), old(tables), root, v, rights);
      if w.OutOfRange? { return Panic; }
      if w.Missing? { return NoMemory; }
      assert Meet(mem, root, v) == Meet(old(mem), root, v);
      var e := SlotEntry(root, v, w.table);
      if e.present { return Panic; }
      ghost var mem1 := mem;
      e := Pte(true, false, rights, frame);
      LeafForest(mem, at, tables, w.table, Index(v, 0), e);
      LeafMapped(mem, at, tables, root, v, w.table, e);
      mem := mem[w.table := mem[w.table][Index(v, 0) := e]];
      MappedOne(old(mem), mem1, mem, old(at), old(tables), at, tables, root, v, frame, rights);
      r := Done;
    }

    /** The next page of a run that has mapped `frames` so far. */
    method MapNext(root: nat, first: nat, i: nat, frame: nat, rights: Rights,
                   ghost mem0: Tables, ghost at0: Places, ghost tables0: set<nat>, ghost frames: seq<nat>)
      returns (r: Outcome, ghost frames': seq<nat>)
      requires Valid() && |frames| == i && Made(mem0, at0, tables0, mem, at, tables, root, first, frames, rights)
      requires PlainAt(mem0, root, first + i)
      modifies this
      ensures Valid() && Made(mem0, at0, tables0, mem, at, tables, root, first, frames', rights)
      ensures frames' == if r.Done? then frames + [frame] else frames
      ensures r.NoMemory? ==> free == {} && Lacking(mem, root, 3, first + i) > 0
      ensures r.Panic? ==> !Vacant(mem0, root, first + i)
      ensures old(tables) <= tables <= old(tables) + old(free) && free == old(free) - tables
      ensures mem.Keys == old(mem.Keys) + tables
    {
      SeenBefore(mem0, mem, at0, tables0, root, first, frames, rights);
      r := MapOne(root, first + i, frame, rights);
      frames' := MadeMore(mem0, at0, tables0, old(mem), old(at), old(tables), mem, at, tables, root, first, frames,
                          frame, r, rights);
    }

    /** The loop of vmm_map_pages: n pages from `first`, n frames from `frame`. */
    method MapRun(root: nat, first: nat, n: nat, frame: nat, rights: Rights)
      returns (r: Outcome, ghost frames: seq<nat>)
      requires Valid() && IsRoot(at, tables, root) && PlainOn(mem, root, first, n)
      modifies this
      ensures Valid() && Made(old(mem), old(at), old(tables), mem, at, tables, root, first, frames, rights)
      ensures forall i :: 0 <= i < |frames| ==> frames[i] == (frame + i) % FRAMES
      ensures |frames| <= n && (r.Done? <==> |frames| == n)
      ensures r.NoMemory? ==> free == {} && Lacking(mem, root, 3, first + |frames|) > 0
      ensures r.Panic? ==> !Vacant(old(mem), root, first + |frames|)
      ensures tables <= old(tables) + old(free) && free == old(free) - tables
      ensures mem.Keys == old(mem.Keys) + tables
    {
      frames := [];
      MadeNone(mem, at, tables, root, first, rights);
      var i := 0;
      while i < n
        invariant i <= n && |frames| == i && Valid()
        invariant Made(old(mem), old(at), old(tables), mem, at, tables, root, first, frames, rights)
        invariant forall k :: 0 <= k < i ==> frames[k] == (frame + k) % FRAMES
        invariant tables <= old(tables) + old(free) && free == old(free) - tables && mem.Keys == old(mem.Keys) + tables
      {
        assert PlainAt(old(mem), root, first + i);
        r, frames := MapNext(root, first, i, (frame + i) % FRAMES, rights, old(mem), old(at), old(tables), frames);
        if !r.Done? { return r, frames; }
        i := i + 1;
      }
      r := Done;
    }

    /** vmm_map_pages.  `frames` are those it mapped: all of them if it succeeds.  It
        stops at the first page that is outside the user half, is mapped already, or
        needs a table when no frame is free. */
    method MapPages(root: nat, va: nat, size: nat, pa: nat, rights: Rights) returns (r: Outcome, ghost frames: seq<nat>)
      requires Valid() && IsRoot(at, tables, root) && PlainOn(mem, root, va / PAGE, size / PAGE)
      modifies this
      ensures Valid() && Made(old(mem), old(at), old(tables), mem, at, tables, root, va / PAGE, frames, rights)
      ensures forall i :: 0 <= i < |frames| ==> frames[i] == (pa / PAGE + i) % FRAMES
      ensures |frames| <= size / PAGE
      ensures r.Done? <==> Aligned(va, size) && pa % PAGE == 0 && |frames| == size / PAGE
      ensures r.NoMemory? ==> free == {} && Lacking(mem, root, 3, va / PAGE + |frames|) > 0
      ensures r.Panic? && Aligned(va, size) && pa % PAGE == 0 ==> !Vacant(old(mem), root, va / PAGE + |frames|)
      ensures tables <= old(tables) + old(free) && free == old(free) - tables
    {
      frames := [];
      MadeNone(mem, at, tables, root, va / PAGE, rights);
      if pa % PAGE != 0 || va % PAGE != 0 || size % PAGE != 0 || size == 0 { return Panic, frames; }
      r, frames := MapRun(root, va / PAGE, size / PAGE, pa / PAGE, rights);
    }

    method Kfree(f: nat)
      requires Valid() && f !in mem && f < FRAMES
      modifies this`free
      ensures Valid() && free == old(free) + {f}
    {
      free := free + {f};
    }

    /** One turn of the loop of vmm_allocate. */
    method AllocateOne(root: nat, v: nat, rights: Rights) returns (r: Outcome, frame: nat)
      requires Valid() && IsRoot(at, tables, root) && PlainAt(mem, root, v)
      modifies this
      ensures Valid() && Grown(old(at), old(tables), at, tables)
      ensures Mapped(old(mem), mem, old(at), old(tables), root, v, if r.Done? then [frame] else [], rights)
      ensures r.Done? ==> Vacant(old(mem), root, v) && frame in old(free) && frame !in free && frame !in tables
      ensures r.Panic? ==> !Vacant(old(mem), root, v)
      ensures r.NoMemory? <==>
        old(free) == {} || (MIN_PAGE <= v < USER_PAGES && Card(old(free)) < 1 + Lacking(old(mem), root, 3, v))
      ensures r.NoMemory? ==> Short(mem, free, root, v)
      ensures tables <= old(tables) + old(free) && free <= old(free)
      ensures !r.Panic? ==> free == old(free) - tables - (if r.Done? then {frame} else {})
    {
      frame := 0;
      MappedNone(mem, mem, at, tables, root, v, rights);
      var f := Kalloc();
      if f.None? { return NoMemory, 0; }
      frame := f.value;
      r := MapOne(root, v, frame, rights);
      if r.NoMemory? {
        Kfree(frame);
        CardLess(free, frame);
      }
    }

    method AllocateNext(root: nat, first: nat, i: nat, rights: Rights, ghost mem0: Tables, ghost at0: Places,
                        ghost tables0: set<nat>, ghost free0: set<nat>, ghost frames: seq<nat>)
      returns (r: Outcome, ghost frames': seq<nat>)
      requires Valid() && |frames| == i && Made(mem0, at0, tables0, mem, at, tables, root, first, frames, rights)
      requires FromPool(frames, free0, free, tables) && PlainAt(mem0, root, first + i)
      requires AllUsed(free0, free, tables, frames)
      modifies this
      ensures Valid() && Made(mem0, at0, tables0, mem, at, tables, root, first, frames', rights)
      ensures FromPool(frames', free0, free, tables) && tables <= old(tables) + old(free)
      ensures |frames'| == if r.Done? then i + 1 else i
      ensures r.Panic? ==> !Vacant(mem0, root, first + i)
      ensures r.NoMemory? ==> Short(mem, free, root, first + i)
      ensures !r.Panic? ==> AllUsed(free0, free, tables, frames')
    {
      var frame;
      SeenBefore(mem0, mem, at0, tables0, root, first, frames, rights);
      r, frame := AllocateOne(root, first + i, rights);
      frames' := MadeMore(mem0, at0, tables0, old(mem), old(at), old(tables), mem, at, tables, root, first, frames,
                          frame, r, rights);
      PoolMore(frames, frames', frame, free0, old(free), old(tables), free, tables, r);
      if !r.Panic? { UsedMore(free0, old(free), old(tables), frames, free, tables, frames', frame, r); }
    }

    /** The loop of vmm_allocate. */
    method AllocateRun(root: nat, first: nat, n: nat, rights: Rights) returns (r: Outcome, ghost frames: seq<nat>)
      requires Valid() && IsRoot(at, tables, root) && PlainOn(mem, root, first, n)
      modifies this
      ensures Valid() && Made(old(mem), old(at), old(tables), mem, at, tables, root, first, frames, rights)
      ensures FromPool(frames, old(free), free, tables) && tables <= old(tables) + old(free)
      ensures |frames| <= n && (r.Done? <==> |frames| == n)
      ensures r.Panic? ==> !Vacant(old(mem), root, first + |frames|)
      ensures r.NoMemory? ==> Short(mem, free, root, first + |frames|)
      ensures !r.Panic? ==> AllUsed(old(free), free, tables, frames)
    {
      frames := [];
      MadeNone(mem, at, tables, root, first, rights);
      var i := 0;
      while i < n
        invariant i <= n && |frames| == i && Valid()
        invariant FromPool(frames, old(free), free, tables) && tables <= old(tables) + old(free)
        invariant AllUsed(old(free), free, tables, frames)
        invariant Made(old(mem), old(at), old(tables), mem, at, tables, root, first, frames, rights)
      {
        assert PlainAt(old(mem), root, first + i);
        r, frames := AllocateNext(root, first, i, rights, old(mem), old(at), old(tables), old(free), frames);
        if !r.Done? { return r, frames; }
        i := i + 1;
      }
      r := Done;
    }

    /** vmm_allocate: every page gets a frame of its own that was free.  It gives up only
        when the frames left are not enough for the next page; all the others are tables
        or belong to the pages before it. */
    method Allocate(root: nat, va: nat, size: nat, rights: Rights) returns (r: Outcome, ghost frames: seq<nat>)
      requires Valid() && IsRoot(at, tables, root) && PlainOn(mem, root, va / PAGE, size / PAGE)
      modifies this
      ensures Valid() && Made(old(mem), old(at), old(tables), mem, at, tables, root, va / PAGE, frames, rights)
      ensures FromPool(frames, old(free), free, tables) && tables <= old(tables) + old(free)
      ensures |frames| <= size / PAGE && (r.Done? <==> Aligned(va, size) && |frames| == size / PAGE)
      ensures r.Panic? && Aligned(va, size) ==> !Vacant(old(mem), root, va / PAGE + |frames|)
      ensures !Aligned(va, size) ==> r.Panic?
      ensures r.NoMemory? ==> Short(mem, free, root, va / PAGE + |frames|)
      ensures !r.Panic? ==> AllUsed(old(free), free, tables, frames)
    {
      frames := [];
      MadeNone(mem, at, tables, root, va / PAGE, rights);
      if va % PAGE != 0 || size % PAGE != 0 || size == 0 { return Panic, frames; }
      r, frames := AllocateRun(root, va / PAGE, size / PAGE, rights);
    }

    /** copy_pagetable: a deep copy of table src of level l into the frame dst.  `made`
        are the tables of the copy.  The source and every other table are left alone,
        also when memory runs out. */
    method Copy(dst: nat, src: nat, l: nat) returns (ok: bool, ghost made: set<nat>)
      requires Valid() && CanCopy(mem, at, tables, dst, src, l)
      modifies this`mem, this`free, this`at
      ensures Valid() && Beside(old(mem), old(at), old(free), mem, at, free, dst)
      ensures ok <==> Inner(old(mem), src, l) <= Card(old(free))
      ensures ok ==> Card(free) == Card(old(free)) - Inner(old(mem), src, l)
      ensures !ok ==> Card(free) == LeftOver(old(mem), src, l, Card(old(free)))
      ensures ok ==> made == old(free) - free + {dst} && made <= mem.Keys && Forest(mem, at, made)
      ensures ok ==> Below(at, made - {dst}, l) && SameFrom(mem, dst, src, l)
      decreases l, 4
    {
      mem := mem[dst := mem[src]];
      ForestFrame(old(mem), at, mem, at, tables);
      ghost var kids: set<nat> := {};
      ok := true;
      if l > 0 {
        InnerSame(old(mem), at, mem, tables, src, l);
        LeftSame(old(mem), at, mem, tables, src, l, Card(free));
        ok, kids := CopyEntries(dst, src, l);
      }
      if ok { CopyWhole(mem, at, tables, kids, dst, src, l); }
      made := kids + {dst};
    }

    /** The loop of copy_pagetable. */
    method CopyEntries(dst: nat, src: nat, l: nat) returns (ok: bool, ghost kids: set<nat>)
      requires Valid() && CanCopy(mem, at, tables, dst, src, l) && l > 0 && mem[dst] == mem[src]
      modifies this`mem, this`free, this`at
      ensures Valid() && Beside(old(mem), old(at), old(free), mem, at, free, dst)
      ensures ok <==> Inner(old(mem), src, l) <= Card(old(free))
      ensures ok ==> Card(free) == Card(old(free)) - Inner(old(mem), src, l)
      ensures !ok ==> Card(free) == LeftOver(old(mem), src, l, Card(old(free)))
      ensures ok ==> Partly(mem, at, tables, kids, dst, src, l, ENTRIES) && kids == old(free) - free
      decreases l, 3
    {
      kids := {};
      var i := 0;
      while i < ENTRIES
        invariant i <= ENTRIES && Valid() && Beside(old(mem), old(at), old(free), mem, at, free, dst)
        invariant Partly(mem, at, tables, kids, dst, src, l, i) && kids == old(free) - free
        invariant Paid(old(mem), src, l, i, Card(old(free)), Card(free))
      {
        ghost var left := free;
        InnerKept(old(mem), old(at), mem, tables, src, l, i);
        LeftKept(old(mem), old(at), mem, tables, src, l, i, Card(free));
        ok, kids := CopyNext(dst, src, l, i, kids);
        PaidNext(old(mem), src, l, i, Card(old(free)), Card(left), ok, Card(free));
        if !ok { return false, {}; }
        StillTaken(kids, old(free), left, free);
        i := i + 1;
      }
      ok := true;
    }

    /** The next entry, after the copies of the ones before it, which are the tables `kids`. */
    method CopyNext(dst: nat, src: nat, l: nat, i: nat, ghost kids: set<nat>) returns (ok: bool, ghost kids': set<nat>)
      requires Valid() && Partly(mem, at, tables, kids, dst, src, l, i) && l > 0 && i < ENTRIES
      requires kids !! tables && dst !in kids
      modifies this`mem, this`free, this`at
      ensures Valid() && Beside(old(mem), old(at), old(free), mem, at, free, dst)
      ensures ok ==> Partly(mem, at, tables, kids', dst, src, l, i + 1)
      ensures ok ==> kids' == kids + (old(free) - free)
      ensures ok <==> InnerAt(old(mem), src, l, i) <= Card(old(free))
      ensures ok ==> Card(free) == Card(old(free)) - InnerAt(old(mem), src, l, i)
      ensures !ok ==> Card(free) == LeftAt(old(mem), src, l, i, Card(old(free)))
      decreases l, 2
    {
      kids' := kids;
      ghost var more;
      ok, more := CopyEntry(dst, src, l, i);
      if ok {
        KidsMore(old(mem), old(at), tables, mem, at, kids, more, dst, src, l, i);
        kids' := kids + more;
      }
    }

    /** One turn of the loop of copy_pagetable. */
    method CopyEntry(dst: nat, src: nat, l: nat, i: nat) returns (ok: bool, ghost more: set<nat>)
      requires Valid() && CanCopy(mem, at, tables, dst, src, l) && l > 0 && i < ENTRIES && mem[dst][i] == mem[src][i]
      modifies this`mem, this`free, this`at
      ensures Valid() && Beside(old(mem), old(at), old(free), mem, at, free, dst)
      ensures ok <==> InnerAt(old(mem), src, l, i) <= Card(old(free))
      ensures ok ==> Card(free) == Card(old(free)) - InnerAt(old(mem), src, l, i)
      ensures !ok ==> Card(free) == LeftAt(old(mem), src, l, i, Card(old(free)))
      ensures ok ==> Kids(mem, at, more, l) && more == old(free) - free && more !! old(mem.Keys)
      ensures ok ==>
        Whole(mem, dst) && mem[dst] == old(mem[dst])[i := mem[dst][i]] && Copied(mem, at, more, dst, src, l, i)
      decreases l, 1
    {
      more := {};
      var e := mem[src][i];
      if !e.present || e.huge { return true, {}; }
      var c;
      c, more := CopyChild(dst, src, l, i, e.frame);
      if c.None? { return false, {}; }
      EntryDone(mem, at, tables, more, dst, src, l, i, c.value);
      mem := mem[dst := mem[dst][i := Pte(true, false, e.rights, c.value)]];
      ok := true;
    }

    /** A copy of the table that entry i of src leads to. */
    method CopyChild(dst: nat, src: nat, l: nat, i: nat, from: nat) returns (c: Option<nat>, ghost more: set<nat>)
      requires Valid() && CanCopy(mem, at, tables, dst, src, l) && l > 0 && i < ENTRIES && mem[src][i].present
      requires !mem[src][i].huge && mem[src][i].frame == from
      modifies this`mem, this`free, this`at
      ensures Valid() && Beside(old(mem), old(at), old(free), mem, at, free, dst) && mem[dst] == old(mem[dst])
      ensures c.Some? <==> 1 + Inner(old(mem), from, l - 1) <= Card(old(free))
      ensures c.Some? ==> Card(free) == Card(old(free)) - 1 - Inner(old(mem), from, l - 1)
      ensures c.None? ==> Card(free) == LeftAt(old(mem), src, l, i, Card(old(free)))
      ensures c.Some? ==> Kids(mem, at, more, l) && more == old(free) - free && more !! old(mem.Keys)
      ensures c.Some? ==>
        && c.value in more && at[c.value] == Child(at[dst], dst, i)
        && SameFrom(mem, c.value, from, l - 1)
      decreases l, 0
    {
      more := {};
      c := NewChild(dst, src, l, i, from);
      if c.None? { return; }
      ghost var mem1, at1 := mem, at;
      var ok;
      ok, more := CopyOrFree(c.value, from, l - 1);
      if ok {
        ChildBeside(old(mem), old(at), old(free), mem1, at1, mem, at, free, c.value, dst);
        FromFree(c.value, old(free), free, more);
      } else {
        c, more := None, {};
      }
    }

    /** Its contents; the table is given back if memory runs out. */
    method CopyOrFree(c: nat, from: nat, l: nat) returns (ok: bool, ghost made: set<nat>)
      requires Valid() && CanCopy(mem, at, tables, c, from, l) && c < FRAMES
      modifies this`mem, this`free, this`at
      ensures Valid() && (ok ==> Beside(old(mem), old(at), old(free), mem, at, free, c))
      ensures !ok ==>
        && old(mem.Keys) - {c} <= mem.Keys <= old(mem.Keys) + old(free) - {c} && free <= old(free) + {c}
        && (forall t :: t in old(mem) && t != c ==> t in mem && mem[t] == old(mem)[t])
        && (forall t :: t in old(mem) && t in old(at) ==> t in at && at[t] == old(at)[t])
      ensures ok <==> Inner(old(mem), from, l) <= Card(old(free))
      ensures ok ==> Card(free) == Card(old(free)) - Inner(old(mem), from, l)
      ensures !ok ==> Card(free) == 1 + LeftOver(old(mem), from, l, Card(old(free)))
      ensures ok ==> made == old(free) - free + {c} && made <= mem.Keys && Forest(mem, at, made)
      ensures ok ==> Below(at, made - {c}, l) && SameFrom(mem, c, from, l)
      decreases l, 5
    {
      ok, made := Copy(c, from, l);
      if !ok { Discard(c); }
    }

    /** A zeroed table for it. */
    method NewChild(dst: nat, src: nat, l: nat, i: nat, from: nat) returns (c: Option<nat>)
      requires Valid() && CanCopy(mem, at, tables, dst, src, l) && l > 0 && i < ENTRIES && mem[src][i].present
      requires !mem[src][i].huge && mem[src][i].frame == from
      modifies this`mem, this`free, this`at
      ensures Valid() && (c.None? <==> Card(old(free)) == 0)
      ensures c.None? ==> mem == old(mem) && free == old(free) && at == old(at)
      ensures c.Some? ==> c.value in old(free) && free == old(free) - {c.value} && Card(free) == Card(old(free)) - 1
      ensures c.Some? ==> mem == old(mem)[c.value := Zeros()] && at == old(at)[c.value := Child(old(at)[dst], dst, i)]
      ensures c.Some? ==>
        && CanCopy(mem, at, tables, c.value, from, l - 1) && Inner(mem, from, l - 1) == Inner(old(mem), from, l - 1)
        && LeftOver(mem, from, l - 1, Card(free)) == LeftOver(old(mem), from, l - 1, Card(free))
    {
      c := Kalloc();
      if c.None? { return; }
      CanCopyChild(mem, at, tables, dst, src, l, i, c.value);
      mem := mem[c.value := Zeros()];
      at := at[c.value := Child(at[dst], dst, i)];
      assert TableOk(old(mem), old(at), tables, src) && SlotOk(old(mem), old(at), tables, src, i);
      InnerSame(old(mem), old(at), mem, tables, from, l - 1);
      LeftSame(old(mem), old(at), mem, tables, from, l - 1, Card(free));
    }

    /** The first part of vmm_user_pagetable_new: a new root that translates every page as
        src does and shares no table with it. */
    method NewSpace(src: nat) returns (root: Option<nat>)
      requires Valid() && IsRoot(at, tables, src)
      modifies this
      ensures Valid() && old(tables) <= tables && Agree(old(mem), mem, old(tables))
      ensures SameWalks(old(mem), mem, old(at), old(tables)) && forall t :: t in old(tables) ==>
        t in at && at[t] == old(at)[t]
      ensures root.None? <==> Card(old(free)) < 1 + Inner(old(mem), src, 3)
      // a copy that fails gives back the table it is filling on each level, and no other
      ensures root.None? ==> tables == old(tables) && Card(free) <= 2
      ensures root.None? && old(free) != {} ==> Card(free) == LeftOver(old(mem), src, 3, Card(old(free)) - 1)
      ensures root.Some? ==> tables == old(tables) + (old(free) - free)
      ensures root.Some? ==> IsRoot(at, tables, root.value) && root.value !in old(tables)
      ensures root.Some? ==> forall v: nat :: Meet(mem, root.value, v) == Meet(old(mem), src, v)
      ensures root.Some? ==> forall v: nat :: Translate(mem, root.value, v) == Translate(old(mem), src, v)
      ensures root.Some? ==> forall t :: t in tables && t !in old(tables) && t != root.value ==> at[t].level < 3
    {
      root := NewRoot(src);
      if root.None? { return; }
      var r := root.value;
      var ok;
      ghost var made;
      ok, made := Copy(r, src, 3);
      WalksKept(old(mem), old(at), mem, tables);
      if !ok { return None; }
      ForestJoin(mem, at, tables, made);
      FromFree(r, old(free), free, made);
      tables := tables + made;
      assert SameFrom(mem, r, src, 3);
      forall v: nat ensures Meet(mem, r, v) == Meet(old(mem), src, v) {
        assert Trace(mem, r, 3, v, FULL) == Trace(mem, src, 3, v, FULL);
        assert Meet(mem, src, v) == Meet(old(mem), src, v);
      }
    }

    /** A zeroed root. */
    method NewRoot(src: nat) returns (root: Option<nat>)
      requires Valid() && IsRoot(at, tables, src)
      modifies this`mem, this`free, this`at
      ensures Valid() && (root.None? <==> old(free) == {})
      ensures Card(free) == if root.None? then 0 else Card(old(free)) - 1
      ensures root.None? ==> mem == old(mem) && free == old(free) && at == old(at)
      ensures root.Some? ==> root.value in old(free) && free == old(free) - {root.value}
      ensures root.Some? ==>
        mem == old(mem)[root.value := Zeros()] && at == old(at)[root.value := Place(3, 0, root.value, root.value, 0)]
      ensures root.Some? ==>
        && CanCopy(mem, at, tables, root.value, src, 3) && Inner(mem, src, 3) == Inner(old(mem), src, 3)
        && LeftOver(mem, src, 3, Card(free)) == LeftOver(old(mem), src, 3, Card(free))
        && (Card(free) < Inner(mem, src, 3) ==> LeftOver(mem, src, 3, Card(free)) <= 2)
    {
      root := Kalloc();
      if root.None? { return; }
      var r := root.value;
      mem := mem[r := Zeros()];
      at := at[r := Place(3, 0, r, r, 0)];
      ForestFrame(old(mem), old(at), mem, at, tables);
      assert TableOk(mem, at, tables, src);
      InnerSame(old(mem), old(at), mem, tables, src, 3);
      LeftSame(old(mem), old(at), mem, tables, src, 3, Card(free));
      LeftIs(mem, src, 3, Card(free));
    }

    /** What is mapped in a copy later never shows in the source. */
    method CopyThenMap(src: nat, va: nat, size: nat, pa: nat, rights: Rights) returns (root: Option<nat>, r: Outcome)
      requires Valid() && IsRoot(at, tables, src) && PlainOn(mem, src, va / PAGE, size / PAGE)
      modifies this
      ensures Valid()
      ensures forall v: nat :: v < PAGES ==> Meet(mem, src, v) == Meet(old(mem), src, v)
      ensures root.Some? && r.Done? ==> forall v: nat :: v < PAGES ==>
        Meet(mem, root.value, v) ==
          if va / PAGE <= v < va / PAGE + size / PAGE
          then Look(Some(Mapping((pa / PAGE + v - va / PAGE) % FRAMES, rights)), Meet(old(mem), src, v).inner, true)
          else Meet(old(mem), src, v)
    {
      r := Done;
      root := NewSpace(src);
      forall v: nat | v < PAGES ensures Meet(mem, src, v) == Meet(old(mem), src, v) {}
      if root.None? { return; }
      forall v: nat | va / PAGE <= v < va / PAGE + size / PAGE
        ensures PlainAt(mem, root.value, v)
      {
        assert PlainAt(old(mem), src, v);
      }
      ghost var mem1, frames := mem, [];
      r, frames := MapPages(root.value, va, size, pa, rights);
      assert Mapped(mem1, mem, old(at), old(tables), root.value, va / PAGE, frames, rights);
    }

    /** kfree of a table that is in no tree. */
    method Discard(t: nat)
      requires Valid() && t in mem && t !in tables && t < FRAMES
      modifies this`mem, this`free
      ensures Valid() && mem == old(mem) - {t} && free == old(free) + {t} && Card(free) == Card(old(free)) + 1
    {
      ForestFrame(mem, at, mem - {t}, at, tables);
      mem := mem - {t};
      free := free + {t};
      CardLess(free, t);
    }
  }

  /** A walk that stops on a level does not get below it. */
  lemma {:induction false} ReachNone(mem: Tables, t: nat, l: nat, v: nat, k: nat, j: nat)
    requires j <= k <= l && Reach(mem, t, l, v, k) == None
    ensures Reach(mem, t, l, v, j) == None
    decreases l
  {
    if l > k && Whole(mem, t) {
      var e := mem[t][Index(v, l)];
      if e.present && !e.huge { ReachNone(mem, e.frame, l - 1, v, k, j); }
    }
  }

  /** Exactly the pages from `first` on are given these frames with these rights; every
      other page of every root is as it was. */
  ghost predicate Mapped(mem: Tables, mem': Tables, at: Places, s: set<nat>, root: nat, first: nat, frames: seq<nat>,
                         rights: Rights) {
    forall r, v {:trigger Meet(mem', r, v)} :: IsRoot(at, s, r) && 0 <= v < PAGES ==>
      Meet(mem', r, v) ==
        if r == root && first <= v < first + |frames|
          then Look(Some(Mapping(frames[v - first], rights)), Meet(mem, r, v).inner, true)
        else Meet(mem, r, v)
  }

  /** In terms of the flat map: the pages get their frames, with the rights asked for as
      far as the inner entries leave them (all of them on a path made by walk), and no
      other page of any root changes. */
  lemma MappedTranslates(mem: Tables, mem': Tables, at: Places, s: set<nat>, root: nat, first: nat, frames: seq<nat>,
                         rights: Rights, r: nat, v: nat)
    requires Mapped(mem, mem', at, s, root, first, frames, rights) && IsRoot(at, s, r) && v < PAGES
    ensures r == root && first <= v < first + |frames| ==>
      Translate(mem', r, v) == Some(Mapping(frames[v - first], Narrow(Meet(mem, r, v).inner, rights)))
    ensures r == root && first <= v < first + |frames| && Meet(mem, r, v).inner == FULL ==>
      Translate(mem', r, v) == Some(Mapping(frames[v - first], rights))
    ensures r != root || v < first || first + |frames| <= v ==> Translate(mem', r, v) == Translate(mem, r, v)
  {
    assert Meet(mem', r, v) ==
      if r == root && first <= v < first + |frames|
        then Look(Some(Mapping(frames[v - first], rights)), Meet(mem, r, v).inner, true)
      else Meet(mem, r, v);
  }

  lemma MappedNone(mem: Tables, mem': Tables, at: Places, s: set<nat>, root: nat, first: nat, rights: Rights)
    requires SameWalks(mem, mem', at, s)
    ensures Mapped(mem, mem', at, s, root, first, [], rights)
  {
  }

  /** Writing the entry for v gives v its frame and changes no other page. */
  lemma LeafMapped(mem: Tables, at: Places, s: set<nat>, root: nat, v: nat, u: nat, e: Pte)
    requires Forest(mem, at, s) && IsRoot(at, s, root) && v < PAGES && Reach(mem, root, 3, v, 0) == Some(u)
    requires OnPath(at, s, u, 0, v) && Whole(mem, u) && e.present
    ensures Mapped(mem, WithEntry(mem, u, Index(v, 0), e), at, s, root, v, [e.frame], e.rights)
  {
    var mem' := WithEntry(mem, u, Index(v, 0), e);
    forall r, w: nat | IsRoot(at, s, r) && w < PAGES
      ensures Meet(mem', r, w) == if r == root && w == v then Leafed(Meet(mem, r, w), e) else Meet(mem, r, w)
    {
      LeafTrace(mem, at, s, u, Index(v, 0), e, r, 3, w, FULL);
      if Reach(mem, r, 3, w, 0) == Some(u) && Index(w, 0) == Index(v, 0) { DistinctSlots(mem, at, s, root, v, r, w); }
    }
  }

  lemma MappedOne(mem: Tables, mem1: Tables, mem': Tables, at: Places, s: set<nat>, at1: Places, s1: set<nat>,
                  root: nat, v: nat, frame: nat, rights: Rights)
    requires Grown(at, s, at1, s1) && SameWalks(mem, mem1, at, s)
    requires Mapped(mem1, mem', at1, s1, root, v, [frame], rights)
    ensures Mapped(mem, mem', at, s, root, v, [frame], rights)
  {
    forall r, w: nat | IsRoot(at, s, r) && w < PAGES
      ensures Meet(mem', r, w) == if r == root && w == v
        then Look(Some(Mapping(frame, rights)), Meet(mem, r, w).inner, true) else Meet(mem, r, w)
    {
      assert at1[r] == at[r] && IsRoot(at1, s1, r);
      assert Meet(mem1, r, w) == Meet(mem, r, w);
    }
  }

  /** Page v is in the user half and not mapped. */
  ghost predicate Vacant(mem: Tables, root: nat, v: nat) {
    MIN_PAGE <= v < USER_PAGES && Meet(mem, root, v).found == None
  }

  ghost predicate Unmapped(mem: Tables, root: nat, first: nat, n: nat) {
    forall v {:trigger Vacant(mem, root, v)} :: first <= v < first + n ==> Vacant(mem, root, v)
  }

  lemma MappedThen(mem: Tables, mem1: Tables, mem': Tables, at: Places, s: set<nat>, at1: Places, s1: set<nat>,
                   at': Places, s': set<nat>, root: nat, first: nat, frames: seq<nat>, more: seq<nat>, rights: Rights)
    requires Grown(at, s, at1, s1) && Grown(at1, s1, at', s') && IsRoot(at, s, root)
    requires Mapped(mem, mem1, at, s, root, first, frames, rights)
    requires Mapped(mem1, mem', at1, s1, root, first + |frames|, more, rights)
    ensures Grown(at, s, at', s') && Mapped(mem, mem', at, s, root, first, frames + more, rights)
  {
    forall t | t in s ensures t in at && t in at' && at'[t] == at[t] { assert t in s1 && at1[t] == at[t]; }
    forall r | IsRoot(at', s', r) ensures r in s { assert r in s1 && at'[r] == at1[r] && IsRoot(at1, s1, r); }
    forall r, w: nat | IsRoot(at, s, r) && w < PAGES
      ensures Meet(mem', r, w) == if r == root && first <= w < first + |frames + more|
        then Look(Some(Mapping((frames + more)[w - first], rights)), Meet(mem, r, w).inner, true) else Meet(mem, r, w)
    {
      assert at1[r] == at[r] && IsRoot(at1, s1, r);
      assert Meet(mem1, r, w) == Meet(mem1, r, w);
    }
  }

  lemma UnmappedNext(mem: Tables, root: nat, first: nat, i: nat)
    ensures Unmapped(mem, root, first, i + 1) <==> Unmapped(mem, root, first, i) && Vacant(mem, root, first + i)
  {
    if Unmapped(mem, root, first, i + 1) {
      forall v: nat | first <= v <= first + i ensures Vacant(mem, root, v) {}
    }
  }

  /** The next page has not been touched by the mappings before it. */
  lemma SeenBefore(mem: Tables, mem1: Tables, at: Places, s: set<nat>, root: nat, first: nat, frames: seq<nat>,
                   rights: Rights)
    requires IsRoot(at, s, root) && Mapped(mem, mem1, at, s, root, first, frames, rights)
    ensures first + |frames| < PAGES ==> Meet(mem1, root, first + |frames|) == Meet(mem, root, first + |frames|)
    ensures PlainAt(mem, root, first + |frames|) ==> PlainAt(mem1, root, first + |frames|)
  {
  }

  /** Mapping pages puts no huge entry on any way. */
  lemma SmallKept(mem: Tables, mem': Tables, at: Places, s: set<nat>, root: nat, first: nat, frames: seq<nat>,
                  rights: Rights)
    requires IsRoot(at, s, root) && Mapped(mem, mem', at, s, root, first, frames, rights) && Small(mem, root)
    ensures Small(mem', root)
  {
    forall v: nat ensures PlainAt(mem', root, v) { assert PlainAt(mem, root, v); }
  }

  /** The frames are different, were free, and are neither free nor tables now. */
  ghost predicate FromPool(frames: seq<nat>, was: set<nat>, free: set<nat>, tables: set<nat>) {
    && free <= was && (forall i, j :: 0 <= i < j < |frames| ==> frames[i] != frames[j])
    && (forall i :: 0 <= i < |frames| ==> frames[i] in was && frames[i] !in free && frames[i] !in tables)
  }

  /** The pages from `first` on were vacant and are mapped to these frames now, and
      nothing else has changed for any page of any root. */
  ghost predicate Made(mem: Tables, at: Places, s: set<nat>, mem': Tables, at': Places, s': set<nat>,
                       root: nat, first: nat, frames: seq<nat>, rights: Rights)
  {
    && IsRoot(at, s, root) && IsRoot(at', s', root) && Grown(at, s, at', s')
    && Mapped(mem, mem', at, s, root, first, frames, rights) && Unmapped(mem, root, first, |frames|)
  }

  lemma MadeNone(mem: Tables, at: Places, s: set<nat>, root: nat, first: nat, rights: Rights)
    requires IsRoot(at, s, root) && s <= at.Keys
    ensures Made(mem, at, s, mem, at, s, root, first, [], rights)
  {
  }

  /** One page more, if that was done. */
  lemma MadeMore(mem: Tables, at: Places, s: set<nat>, mem1: Tables, at1: Places, s1: set<nat>, mem': Tables,
                 at': Places, s': set<nat>,
                 root: nat, first: nat, frames: seq<nat>, frame: nat, r: Outcome, rights: Rights)
                   returns (frames': seq<nat>)
    requires Made(mem, at, s, mem1, at1, s1, root, first, frames, rights) && Grown(at1, s1, at', s')
    requires Mapped(mem1, mem', at1, s1, root, first + |frames|, if r.Done? then [frame] else [], rights)
    requires r.Done? ==> Vacant(mem1, root, first + |frames|)
    requires r.Panic? ==> !Vacant(mem1, root, first + |frames|)
    ensures frames' == if r.Done? then frames + [frame] else frames
    ensures Made(mem, at, s, mem', at', s', root, first, frames', rights)
    ensures r.Panic? ==> !Vacant(mem, root, first + |frames|)
  {
    var more := if r.Done? then [frame] else [];
    MappedThen(mem, mem1, mem', at, s, at1, s1, at', s', root, first, frames, more, rights);
    SeenBefore(mem, mem1, at, s, root, first, frames, rights);
    UnmappedNext(mem, root, first, |frames|);
    frames' := frames + more;
  }

  predicate Aligned(va: nat, size: nat) {
    va % PAGE == 0 && size % PAGE == 0 && size > 0
  }

  /** At most one frame is left, and that is not enough for page v and its tables. */
  ghost predicate Short(mem: Tables, free: set<nat>, root: nat, v: nat) {
    Card(free) <= 1 && Card(free) < 1 + Lacking(mem, root, 3, v)
  }

  /** No frame of the pool is lost. */
  ghost predicate AllUsed(was: set<nat>, free: set<nat>, tables: set<nat>, frames: seq<nat>) {
    forall f :: f in was ==> f in free || f in tables || f in frames
  }

  lemma UsedMore(was: set<nat>, free1: set<nat>, tables1: set<nat>, frames: seq<nat>, free: set<nat>,
                 tables: set<nat>, frames': seq<nat>, frame: nat, r: Outcome)
    requires AllUsed(was, free1, tables1, frames) && tables1 <= tables
    requires free == free1 - tables - (if r.Done? then {frame} else {})
    requires frames' == if r.Done? then frames + [frame] else frames
    ensures AllUsed(was, free, tables, frames')
  {
  }

  lemma PoolMore(frames: seq<nat>, frames': seq<nat>, frame: nat, was: set<nat>, free1: set<nat>, tables1: set<nat>,
                 free: set<nat>, tables: set<nat>, r: Outcome)
    requires FromPool(frames, was, free1, tables1) && tables <= tables1 + free1 && free <= free1
    requires r.Done? ==> frame in free1 && frame !in free && frame !in tables
    requires frames' == if r.Done? then frames + [frame] else frames
    ensures FromPool(frames', was, free, tables)
  {
    forall i | 0 <= i < |frames'| ensures frames'[i] in was && frames'[i] !in free && frames'[i] !in tables {
      if i < |frames| { assert frames[i] !in free1 && frames[i] !in tables1; }
    }
  }

  /** dst is a frame outside s that is to become a copy of the table src of s. */
  ghost predicate CanCopy(mem: Tables, at: Places, s: set<nat>, dst: nat, src: nat, l: nat) {
    && src in s && src in at && at[src].level == l && Whole(mem, src)
    && dst !in s && Whole(mem, dst) && dst in at && at[dst].level == l <= 3 && at[dst].base == at[src].base
    && (l == 3 ==> at[dst].root == dst && at[dst].base == 0)
  }

  /** Only dst and frames that were free have changed. */
  ghost predicate Beside(mem: Tables, at: Places, free: set<nat>, mem': Tables, at': Places, free': set<nat>,
                         dst: nat) {
    && mem.Keys <= mem'.Keys <= mem.Keys + free && free' <= free && dst in mem'
    && (forall t :: t in mem && t != dst ==> t in mem' && mem'[t] == mem[t])
    && (forall t :: t in mem && t in at ==> t in at' && at'[t] == at[t])
  }

  /** The tables of t are on lower levels than l. */
  ghost predicate Below(at: Places, t: set<nat>, l: nat) {
    forall x :: x in t ==> x in at && at[x].level < l
  }

  ghost predicate SameFrom(mem: Tables, a: nat, b: nat, l: nat) {
    forall v: nat, acc {:trigger Trace(mem, a, l, v, acc)} :: Trace(mem, a, l, v, acc) == Trace(mem, b, l, v, acc)
  }

  ghost predicate Kids(mem: Tables, at: Places, kids: set<nat>, l: nat) {
    kids <= mem.Keys && Forest(mem, at, kids) && Below(at, kids, l)
  }

  /** Entry j of dst leads to a copy of what entry j of src leads to. */
  ghost predicate Copied(mem: Tables, at: Places, kids: set<nat>, dst: nat, src: nat, l: nat, j: nat) {
    && Whole(mem, dst) && Whole(mem, src) && j < ENTRIES && dst in at && at[dst].level == l
    && var e, d := mem[src][j], mem[dst][j];
    if l > 0 && e.present && !e.huge then
      && d == Pte(true, false, e.rights, d.frame) && d.frame in kids && d.frame in at
      && at[d.frame] == Child(at[dst], dst, j)
      && SameFrom(mem, d.frame, e.frame, l - 1)
    else d == e
  }

  /** The first i entries of dst are copied, the others are still those of src. */
  ghost predicate Partly(mem: Tables, at: Places, s: set<nat>, kids: set<nat>, dst: nat, src: nat, l: nat, i: nat) {
    && CanCopy(mem, at, s, dst, src, l) && Kids(mem, at, kids, l)
    && (forall j: nat :: i <= j < ENTRIES ==> mem[dst][j] == mem[src][j])
    && (forall j: nat :: j < i ==> Copied(mem, at, kids, dst, src, l, j))
  }

  lemma StillTaken(kids: set<nat>, free0: set<nat>, free1: set<nat>, free2: set<nat>)
    requires kids == (free0 - free1) + (free1 - free2) && free2 <= free1 <= free0
    ensures kids == free0 - free2
  {
  }

  lemma ChildBeside(mem: Tables, at: Places, free: set<nat>, mem1: Tables, at1: Places, mem': Tables, at': Places,
                    free': set<nat>, c: nat, dst: nat)
    requires c in free && c !in mem && dst in mem && mem1 == mem[c := Zeros()] && c in at1 && at1 == at[c := at1[c]]
    requires Beside(mem1, at1, free - {c}, mem', at', free', c)
    ensures Beside(mem, at, free, mem', at', free', dst) && mem'[dst] == mem[dst]
  {
    forall t | t in mem && t in at ensures t in at' && at'[t] == at[t] { assert t in mem1 && t in at1; }
  }

  lemma FromFree(c: nat, free0: set<nat>, free2: set<nat>, made: set<nat>)
    requires c in free0 && made == free0 - {c} - free2 + {c} && free2 <= free0 - {c}
    ensures made == free0 - free2
  {
  }

  /** The number of tables below table t of level l. */
  ghost function Inner(mem: Tables, t: nat, l: nat): (n: nat)
    decreases l, 2, 0
  {
    if l == 0 || !Whole(mem, t) then 0 else InnerFirst(mem, t, l, ENTRIES)
  }

  /** Those below its first i entries. */
  ghost function InnerFirst(mem: Tables, t: nat, l: nat, i: nat): (n: nat)
    requires l > 0 && Whole(mem, t) && i <= ENTRIES
    decreases l, 1, i
  {
    if i == 0 then 0 else InnerFirst(mem, t, l, i - 1) + InnerAt(mem, t, l, i - 1)
  }

  /** Those below entry i: none if it is not present or huge. */
  ghost function InnerAt(mem: Tables, t: nat, l: nat, i: nat): (n: nat)
    requires l > 0 && Whole(mem, t) && i < ENTRIES
    decreases l, 0, i
  {
    var e := mem[t][i];
    if e.present && !e.huge then 1 + Inner(mem, e.frame, l - 1) else 0
  }

  /** The frames left of n after the tables below table t of level l are copied, or after
      memory ran out and the copy on each level was given up. */
  ghost function LeftOver(mem: Tables, t: nat, l: nat, n: nat): (left: nat)
    decreases l, 2, 0
  {
    if l == 0 || !Whole(mem, t) then n else LeftFrom(mem, t, l, 0, n)
  }

  ghost function LeftFrom(mem: Tables, t: nat, l: nat, i: nat, n: nat): (left: nat)
    requires l > 0 && Whole(mem, t) && i <= ENTRIES
    decreases l, 1, ENTRIES - i
  {
    if i == ENTRIES then n
    else if InnerAt(mem, t, l, i) <= n then LeftFrom(mem, t, l, i + 1, n - InnerAt(mem, t, l, i))
    else LeftAt(mem, t, l, i, n)
  }

  /** Memory runs out below entry i. */
  ghost function LeftAt(mem: Tables, t: nat, l: nat, i: nat, n: nat): (left: nat)
    requires l > 0 && Whole(mem, t) && i < ENTRIES
    decreases l, 0, 0
  {
    if n == 0 then 0 else 1 + LeftOver(mem, mem[t][i].frame, l - 1, n - 1)
  }

  /** With enough frames the others are left; else at most one for each level but the
      last. */
  lemma LeftIs(mem: Tables, t: nat, l: nat, n: nat)
    ensures Inner(mem, t, l) <= n ==> LeftOver(mem, t, l, n) == n - Inner(mem, t, l)
    ensures Inner(mem, t, l) > n ==> LeftOver(mem, t, l, n) < l
    decreases l, 1, 0
  {
    if l > 0 && Whole(mem, t) { LeftFromIs(mem, t, l, 0, n); }
  }

  lemma LeftFromIs(mem: Tables, t: nat, l: nat, i: nat, n: nat)
    requires l > 0 && Whole(mem, t) && i <= ENTRIES
    ensures var rest := Inner(mem, t, l) - InnerFirst(mem, t, l, i);
      if rest <= n then LeftFrom(mem, t, l, i, n) == n - rest else LeftFrom(mem, t, l, i, n) < l
    decreases l, 0, ENTRIES - i
  {
    if i < ENTRIES {
      var k := InnerAt(mem, t, l, i);
      InnerMost(mem, t, l, i + 1);
      if k <= n {
        LeftFromIs(mem, t, l, i + 1, n - k);
      } else if n > 0 {
        LeftIs(mem, mem[t][i].frame, l - 1, n - 1);
      }
    }
  }

  lemma LeftSame(mem: Tables, at: Places, mem': Tables, s: set<nat>, t: nat, l: nat, n: nat)
    requires Forest(mem, at, s) && Agree(mem, mem', s) && t in s && t in at && at[t].level == l
    ensures LeftOver(mem', t, l, n) == LeftOver(mem, t, l, n)
    decreases l, 2, 0
  {
    if l > 0 && Whole(mem, t) { LeftFromSame(mem, at, mem', s, t, l, 0, n); }
  }

  lemma LeftFromSame(mem: Tables, at: Places, mem': Tables, s: set<nat>, t: nat, l: nat, i: nat, n: nat)
    requires Forest(mem, at, s) && Agree(mem, mem', s) && t in s && t in at && at[t].level == l
    requires l > 0 && Whole(mem, t) && i <= ENTRIES
    ensures Whole(mem', t) && LeftFrom(mem', t, l, i, n) == LeftFrom(mem, t, l, i, n)
    decreases l, 1, ENTRIES - i
  {
    if i < ENTRIES {
      InnerKept(mem, at, mem', s, t, l, i);
      if InnerAt(mem, t, l, i) <= n {
        LeftFromSame(mem, at, mem', s, t, l, i + 1, n - InnerAt(mem, t, l, i));
      } else {
        LeftKept(mem, at, mem', s, t, l, i, n);
      }
    }
  }

  lemma LeftKept(mem: Tables, at: Places, mem': Tables, s: set<nat>, t: nat, l: nat, i: nat, n: nat)
    requires Forest(mem, at, s) && Agree(mem, mem', s) && t in s && t in at && at[t].level == l
    requires l > 0 && Whole(mem, t) && i < ENTRIES
    ensures Whole(mem', t)
    ensures InnerAt(mem, t, l, i) > 0 ==> LeftAt(mem', t, l, i, n) == LeftAt(mem, t, l, i, n)
    decreases l, 0, 0
  {
    assert TableOk(mem, at, s, t) && SlotOk(mem, at, s, t, i);
    if InnerAt(mem, t, l, i) > 0 && n > 0 { LeftSame(mem, at, mem', s, mem[t][i].frame, l - 1, n - 1); }
  }

  /** Of all frames that were free, `left` are after the first i entries. */
  ghost predicate Paid(mem: Tables, t: nat, l: nat, i: nat, all: nat, left: nat) {
    && l > 0 && Whole(mem, t) && i <= ENTRIES && left + InnerFirst(mem, t, l, i) == all
    && LeftFrom(mem, t, l, i, left) == LeftOver(mem, t, l, all)
  }

  lemma PaidNext(mem: Tables, t: nat, l: nat, i: nat, all: nat, left: nat, ok: bool, left': nat)
    requires Paid(mem, t, l, i, all, left) && i < ENTRIES && (ok <==> InnerAt(mem, t, l, i) <= left)
    requires left' == if ok then left - InnerAt(mem, t, l, i) else LeftAt(mem, t, l, i, left)
    ensures if ok then Paid(mem, t, l, i + 1, all, left')
            else all < Inner(mem, t, l) && left' == LeftOver(mem, t, l, all)
  {
    InnerMost(mem, t, l, i + 1);
  }

  lemma InnerMost(mem: Tables, t: nat, l: nat, i: nat)
    requires l > 0 && Whole(mem, t) && i <= ENTRIES
    ensures InnerFirst(mem, t, l, i) <= Inner(mem, t, l)
    decreases ENTRIES - i
  {
    if i < ENTRIES { InnerMost(mem, t, l, i + 1); }
  }

  lemma InnerSame(mem: Tables, at: Places, mem': Tables, s: set<nat>, t: nat, l: nat)
    requires Forest(mem, at, s) && Agree(mem, mem', s) && t in s && t in at && at[t].level == l
    ensures Inner(mem', t, l) == Inner(mem, t, l)
    decreases l, 1, 0
  {
    if l > 0 && Whole(mem, t) { InnerFirstSame(mem, at, mem', s, t, l, ENTRIES); }
  }

  lemma InnerFirstSame(mem: Tables, at: Places, mem': Tables, s: set<nat>, t: nat, l: nat, i: nat)
    requires Forest(mem, at, s) && Agree(mem, mem', s) && t in s && t in at && at[t].level == l
    requires l > 0 && Whole(mem, t) && i <= ENTRIES
    ensures Whole(mem', t) && InnerFirst(mem', t, l, i) == InnerFirst(mem, t, l, i)
    decreases l, 0, i
  {
    if i > 0 {
      assert TableOk(mem, at, s, t) && SlotOk(mem, at, s, t, i - 1);
      InnerFirstSame(mem, at, mem', s, t, l, i - 1);
      var e := mem[t][i - 1];
      if e.present && !e.huge { InnerSame(mem, at, mem', s, e.frame, l - 1); }
    }
  }

  lemma InnerKept(mem: Tables, at: Places, mem': Tables, s: set<nat>, t: nat, l: nat, i: nat)
    requires Forest(mem, at, s) && Agree(mem, mem', s) && t in s && t in at && at[t].level == l
    requires l > 0 && Whole(mem, t) && i < ENTRIES
    ensures Whole(mem', t) && InnerAt(mem', t, l, i) == InnerAt(mem, t, l, i)
  {
    InnerFirstSame(mem, at, mem', s, t, l, i);
    InnerFirstSame(mem, at, mem', s, t, l, i + 1);
  }

  /** A copied entry stays copied when neither its copy nor the source changes. */
  lemma CopiedKept(mem: Tables, at: Places, s: set<nat>, mem': Tables, at': Places, kids: set<nat>, kids': set<nat>,
                   dst: nat, src: nat, l: nat, j: nat)
    requires Forest(mem, at, s) && Forest(mem, at, kids) && Agree(mem, mem', s) && Agree(mem, mem', kids)
    requires kids <= kids'
    requires src in s && src in at && at[src].level == l && Copied(mem, at, kids, dst, src, l, j)
    requires Whole(mem', dst) && mem'[dst][j] == mem[dst][j] && dst in at' && at'[dst] == at[dst]
    requires forall t :: t in kids ==> t in at && t in at' && at'[t] == at[t]
    ensures Copied(mem', at', kids', dst, src, l, j)
  {
    var e, d := mem[src][j], mem[dst][j];
    assert TableOk(mem, at, s, src) && SlotOk(mem, at, s, src, j);
    if l > 0 && e.present && !e.huge {
      SameFromKept(mem, at, s, mem', kids, d.frame, e.frame, l - 1);
    }
  }

  lemma CanCopyChild(mem: Tables, at: Places, s: set<nat>, dst: nat, src: nat, l: nat, i: nat, c: nat)
    requires CanCopy(mem, at, s, dst, src, l) && Forest(mem, at, s) && l > 0 && i < ENTRIES && c !in mem
    requires s <= mem.Keys && s <= at.Keys
    requires mem[src][i].present && !mem[src][i].huge
    ensures var mem', at' := mem[c := Zeros()], at[c := Child(at[dst], dst, i)];
      Forest(mem', at', s) && CanCopy(mem', at', s, c, mem[src][i].frame, l - 1)
  {
    var mem', at' := mem[c := Zeros()], at[c := Child(at[dst], dst, i)];
    ForestFrame(mem, at, mem', at', s);
    assert TableOk(mem, at, s, src) && SlotOk(mem, at, s, src, i);
    assert TableOk(mem, at, s, mem[src][i].frame);
  }

  lemma EntryDone(mem: Tables, at: Places, s: set<nat>, more: set<nat>, dst: nat, src: nat, l: nat, i: nat, c: nat)
    requires CanCopy(mem, at, s, dst, src, l) && Forest(mem, at, s) && l > 0 && i < ENTRIES && s <= mem.Keys
    requires s <= at.Keys
    requires Kids(mem, at, more, l) && dst !in more && c in more && at[c] == Child(at[dst], dst, i)
    requires mem[src][i].present && !mem[src][i].huge && SameFrom(mem, c, mem[src][i].frame, l - 1)
    ensures var mem' := mem[dst := mem[dst][i := Pte(true, false, mem[src][i].rights, c)]];
      Forest(mem', at, s) && Kids(mem', at, more, l) && Copied(mem', at, more, dst, src, l, i)
  {
    var e := mem[src][i];
    var mem' := mem[dst := mem[dst][i := Pte(true, false, e.rights, c)]];
    ForestFrame(mem, at, mem', at, s);
    ForestFrame(mem, at, mem', at, more);
    assert TableOk(mem, at, s, src) && SlotOk(mem, at, s, src, i);
    SameFromKept(mem, at, s, mem', more, c, e.frame, l - 1);
  }

  lemma SameFromKept(mem: Tables, at: Places, s: set<nat>, mem': Tables, kids: set<nat>, a: nat, b: nat, l: nat)
    requires Forest(mem, at, s) && Forest(mem, at, kids) && Agree(mem, mem', s) && Agree(mem, mem', kids)
    requires a in kids && b in s && a in at && b in at && at[a].level == at[b].level == l && SameFrom(mem, a, b, l)
    ensures SameFrom(mem', a, b, l)
  {
    forall v: nat, acc: Rights ensures Trace(mem', a, l, v, acc) == Trace(mem', b, l, v, acc) {
      TraceFrame(mem, mem', at, kids, a, l, v, acc);
      TraceFrame(mem, mem', at, s, b, l, v, acc);
      assert Trace(mem, a, l, v, acc) == Trace(mem, b, l, v, acc);
    }
  }

  lemma KidsMore(mem: Tables, at: Places, s: set<nat>, mem': Tables, at': Places, kids: set<nat>, more: set<nat>,
                 dst: nat, src: nat, l: nat, i: nat)
    requires CanCopy(mem, at, s, dst, src, l) && Forest(mem, at, s) && Kids(mem, at, kids, l)
    requires Kids(mem', at', more, l)
    requires Agree(mem, mem', s) && Agree(mem, mem', kids) && i < ENTRIES
    requires forall t :: t in kids || t == dst ==> t in at && t in at' && at'[t] == at[t]
    requires forall j: nat :: j < i ==> Copied(mem, at, kids, dst, src, l, j)
    requires Whole(mem', dst) && (forall j: nat :: j < i ==> mem'[dst][j] == mem[dst][j])
    requires Copied(mem', at', more, dst, src, l, i)
    ensures Kids(mem', at', kids + more, l) && forall j: nat :: j <= i ==>
      Copied(mem', at', kids + more, dst, src, l, j)
  {
    ForestFrame(mem, at, mem', at', kids);
    ForestJoin(mem', at', kids, more);
    forall j: nat | j < i ensures Copied(mem', at', kids + more, dst, src, l, j) {
      CopiedKept(mem, at, s, mem', at', kids, kids + more, dst, src, l, j);
    }
    assert Copied(mem', at', kids + more, dst, src, l, i);
  }

  /** When every entry is copied, the copy is a tree and translates as the source does. */
  lemma CopyWhole(mem: Tables, at: Places, s: set<nat>, kids: set<nat>, dst: nat, src: nat, l: nat)
    requires CanCopy(mem, at, s, dst, src, l) && Kids(mem, at, kids, l)
    requires forall j: nat :: j < ENTRIES && l > 0 ==> Copied(mem, at, kids, dst, src, l, j)
    requires l == 0 ==> mem[dst] == mem[src] && kids == {}
    ensures Forest(mem, at, kids + {dst}) && SameFrom(mem, dst, src, l)
  {
    var all := kids + {dst};
    forall t | t in all ensures TableOk(mem, at, all, t) {
      if t == dst {
        forall j: nat | j < ENTRIES
          ensures SlotOk(mem, at, all, dst, j)
        {
          if l > 0 { assert Copied(mem, at, kids, dst, src, l, j); }
        }
      } else {
        assert TableOk(mem, at, kids, t);
        forall j: nat | j < ENTRIES ensures SlotOk(mem, at, all, t, j) { assert SlotOk(mem, at, kids, t, j); }
      }
    }
    forall v: nat, acc ensures Trace(mem, dst, l, v, acc) == Trace(mem, src, l, v, acc) {
      if l > 0 {
        assert Copied(mem, at, kids, dst, src, l, Index(v, l));
        var e, d := mem[src][Index(v, l)], mem[dst][Index(v, l)];
        if e.present && !e.huge {
          assert Trace(mem, d.frame, l - 1, v, Narrow(acc, e.rights)) == Trace(mem, e.frame, l - 1, v,
              Narrow(acc, e.rights));
        }
      }
    }
  }

  /** Walks do not change when the tables do not. */
  lemma WalksKept(mem: Tables, at: Places, mem': Tables, s: set<nat>)
    requires Forest(mem, at, s) && Agree(mem, mem', s)
    ensures SameWalks(mem, mem', at, s)
  {
    forall r, v: nat | IsRoot(at, s, r) ensures Meet(mem', r, v) == Meet(mem, r, v) {
      TraceFrame(mem, mem', at, s, r, 3, v, FULL);
    }
  }
}
