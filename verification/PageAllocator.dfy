/** The physical page allocator of kernel/src/mem/mem.c.

    Pages are named by their frame number.  The free list is the intrusive list of the
    source: `next` is the first word of each free page.  Regions are the memory ranges
    not carved yet.  The locks are left out: each method that stands for a critical
    section keeps Valid() by itself. */
module PageAllocator {
  import opened Prelude
  import opened Rounding

  /** Frames cur, ..., end - 1. */
  datatype Region = Region(cur: nat, end: nat)

  const POOL: nat := 32
  const MAX_PAGES: nat := 0x10_0000_0000_0000  // 2^64 / PAGE_SIZE

  /** All frames of the regions. */
  function Pages(rs: seq<Region>): (s: set<nat>) {
    if rs == [] then {} else Range(rs[0].cur, rs[0].end) + Pages(rs[1..])
  }

  /** The regions are not empty and do not overlap. */
  ghost predicate Apart(rs: seq<Region>) {
    rs != [] ==> rs[0].cur < rs[0].end && Range(rs[0].cur, rs[0].end) !! Pages(rs[1..]) && Apart(rs[1..])
  }

  /** Take the first n frames of region i; an exhausted region is unlinked. */
  function Carve(rs: seq<Region>, i: nat, n: nat): (r: seq<Region>)
    requires i < |rs|
  {
    if rs[i].cur + n >= rs[i].end then rs[..i] + rs[i + 1..] else rs[i := rs[i].(cur := rs[i].cur + n)]
  }

  lemma CarveEffect(rs: seq<Region>, i: nat, n: nat)
    requires Apart(rs) && i < |rs| && rs[i].cur + n <= rs[i].end
    ensures Apart(Carve(rs, i, n))
    ensures Range(rs[i].cur, rs[i].cur + n) <= Pages(rs)
    ensures Pages(Carve(rs, i, n)) == Pages(rs) - Range(rs[i].cur, rs[i].cur + n)
    decreases i
  {
    if i == 0 {
      CarveFirst(rs, n);
    } else {
      CarveEffect(rs[1..], i - 1, n);
      CarveRest(rs, i, n);
    }
  }

  lemma CarveFirst(rs: seq<Region>, n: nat)
    requires Apart(rs) && 0 < |rs| && rs[0].cur + n <= rs[0].end
    ensures Apart(Carve(rs, 0, n))
    ensures Pages(Carve(rs, 0, n)) == Pages(rs) - Range(rs[0].cur, rs[0].cur + n)
  {
    var r := Carve(rs, 0, n);
    if rs[0].cur + n >= rs[0].end { assert r == rs[1..]; } else { assert r[1..] == rs[1..]; }
  }

  lemma CarveRest(rs: seq<Region>, i: nat, n: nat)
    requires 0 < i < |rs|
    ensures Carve(rs, i, n) == [rs[0]] + Carve(rs[1..], i - 1, n)
    ensures Carve(rs, i, n)[1..] == Carve(rs[1..], i - 1, n)
  {
    assert rs[1..][i - 1] == rs[i];
  }

  lemma AppendEffect(rs: seq<Region>, x: Region)
    requires Apart(rs) && x.cur < x.end && Range(x.cur, x.end) !! Pages(rs)
    ensures Apart(rs + [x]) && Pages(rs + [x]) == Pages(rs) + Range(x.cur, x.end)
  {
    if rs == [] {
      assert rs + [x] == [x];
    } else {
      AppendEffect(rs[1..], x);
      assert (rs + [x])[1..] == rs[1..] + [x];
    }
  }

  /** Entries i, ..., i + n - 1 of the list are consecutive frames. */
  ghost predicate RunAt(list: seq<nat>, i: nat, n: nat) {
    i + n <= |list| && forall j :: i <= j < i + n ==> list[j] == list[i] + (j - i)
  }

  /** p + n - 1, ..., p: the order in which kfree_pages leaves the frames. */
  function Down(p: nat, n: nat): (s: seq<nat>)
    ensures |s| == n && forall i :: 0 <= i < n ==> s[i] == p + n - 1 - i
  {
    seq(n, i requires 0 <= i < n => p + n - 1 - i)
  }

  function Elements(s: seq<nat>): (r: set<nat>) {
    set a | a in s
  }

  /** The list after p, ..., p + i - 1 were pushed on it, and what is out then. */
  function Pushed(list: seq<nat>, p: nat, i: nat): (r: seq<nat>) {
    if i == 0 then list else [p + i - 1] + Pushed(list, p, i - 1)
  }

  function Without(out: set<nat>, p: nat, i: nat): (r: set<nat>) {
    if i == 0 then out else Without(out, p, i - 1) - {p + i - 1}
  }

  lemma PushedIs(list: seq<nat>, p: nat, i: nat)
    ensures Pushed(list, p, i) == Down(p, i) + list
  {
    if i == 0 {
      assert Down(p, 0) + list == list;
    } else {
      PushedIs(list, p, i - 1);
      assert [p + i - 1] + Down(p, i - 1) == Down(p, i);
      assert [p + i - 1] + (Down(p, i - 1) + list) == Down(p, i) + list;
    }
  }

  lemma WithoutIs(out: set<nat>, p: nat, i: nat)
    ensures Without(out, p, i) == out - Range(p, p + i)
  {
    if i == 0 {
      assert Range(p, p) == {};
    } else {
      WithoutIs(out, p, i - 1);
      assert Range(p, p + i) == Range(p, p + (i - 1)) + {p + i - 1};
    }
  }

  lemma StillOut(out: set<nat>, p: nat, i: nat, n: nat)
    requires Range(p, p + n) <= out && i < n
    ensures p + i in Without(out, p, i)
  {
    WithoutIs(out, p, i);
    assert p + i in Range(p, p + n);
  }

  /** One entry of the boot loader's memory map, in bytes. */
  datatype MapEntry = MapEntry(usable: bool, base: nat, length: nat)

  /** The frames wholly inside a usable entry. */
  function Inside(e: MapEntry): (s: set<nat>) {
    if e.usable then Range((e.base + PAGE - 1) / PAGE, (e.base + e.length) / PAGE) else {}
  }

  function Memory(entries: seq<MapEntry>): (s: set<nat>) {
    if entries == [] then {} else Memory(entries[..|entries| - 1]) + Inside(entries[|entries| - 1])
  }

  /** How many entries have such frames. */
  function Pieces(entries: seq<MapEntry>): (n: nat)
    ensures n <= |entries|
  {
    if entries == [] then 0
    else Pieces(entries[..|entries| - 1]) + if Inside(entries[|entries| - 1]) == {} then 0 else 1
  }

  lemma PiecesOf(entries: seq<MapEntry>, n: nat)
    requires n <= |entries|
    ensures Pieces(entries[..n]) <= Pieces(entries)
  {
    if n < |entries| {
      PiecesOf(entries[..|entries| - 1], n);
      assert entries[..|entries| - 1][..n] == entries[..n];
    } else {
      assert entries[..n] == entries;
    }
  }

  lemma OneMore(entries: seq<MapEntry>, i: nat)
    requires i < |entries|
    requires forall j, k :: 0 <= j < k < |entries| ==> Inside(entries[j]) !! Inside(entries[k])
    ensures Inside(entries[i]) !! Memory(entries[..i])
    ensures Memory(entries[..i + 1]) == Memory(entries[..i]) + Inside(entries[i])
    ensures Pieces(entries[..i + 1]) == Pieces(entries[..i]) + (if Inside(entries[i]) == {} then 0 else 1)
    ensures Pieces(entries[..i + 1]) <= Pieces(entries)
  {
    assert entries[..i + 1][..i] == entries[..i];
    MemoryApart(entries, i);
    PiecesOf(entries, i + 1);
  }

  /** The rounding of init_mem keeps exactly those frames. */
  lemma InsideRounded(e: MapEntry)
    requires e.base + e.length < FOUR_GIB
    ensures var lo, hi := RoundUp(e.base), RoundDown(e.base + e.length);
      && (e.usable && e.length >= PAGE && lo < hi ==> Inside(e) == Range(lo / PAGE, hi / PAGE) && lo / PAGE < hi / PAGE)
      && (!(e.usable && e.length >= PAGE && lo < hi) ==> Inside(e) == {})
  {
    RoundDownExact(e.base + e.length);
    if e.base <= FOUR_GIB - PAGE {
      RoundUpExact(e.base);
    }
  }

  lemma MemoryApart(entries: seq<MapEntry>, i: nat)
    requires i < |entries|
    requires forall j, k :: 0 <= j < k < |entries| ==> Inside(entries[j]) !! Inside(entries[k])
    ensures Memory(entries[..i]) !! Inside(entries[i])
  {
    ApartUpTo(entries, i, i);
  }

  lemma ApartUpTo(entries: seq<MapEntry>, n: nat, i: nat)
    requires n <= i < |entries|
    requires forall j, k :: 0 <= j < k < |entries| ==> Inside(entries[j]) !! Inside(entries[k])
    ensures Memory(entries[..n]) !! Inside(entries[i])
  {
    if n > 0 {
      ApartUpTo(entries, n - 1, i);
      assert entries[..n][..n - 1] == entries[..n - 1];
    }
  }

  class Allocator {
    var head: Option<nat>                 // freepages
    var next: map<nat, Option<nat>>       // freepage_t.next
    var regions: seq<Region>
    ghost var list: seq<nat>              // the free list
    ghost var out: set<nat>               // frames handed out
    ghost var usable: set<nat>

    /** The list nodes are chained in the order of `list`. */
    ghost predicate Linked()
      reads this`head, this`next, this`list
    {
      && head == Entry(list, 0)
      && forall i :: 0 <= i < |list| ==> LinkAt(i)
    }

    ghost predicate LinkAt(i: int)
      requires 0 <= i < |list|
      reads this`next, this`list
    {
      list[i] in next && next[list[i]] == Entry(list, i + 1)
    }

    /** Free list, uncarved regions and outstanding frames partition the usable frames. */
    ghost predicate Valid()
      reads this
    {
      && Linked() && Apart(regions)
      && (forall i, j :: 0 <= i < j < |list| ==> list[i] != list[j])
      && usable == Elements(list) + Pages(regions) + out
      && Elements(list) !! Pages(regions) && Elements(list) !! out && Pages(regions) !! out
    }

    constructor ()
      ensures Valid() && list == [] && regions == [] && out == {} && usable == {}
    {
      head, next, regions := None, map[], [];
      list, out, usable := [], {}, {};
    }

    /** append_region before the allocator is ready: regions come from a static pool. */
    method AppendRegion(lo: nat, hi: nat) returns (ok: bool)
      requires Valid() && (lo < hi ==> Range(lo, hi) !! usable)
      modifies this`regions, this`usable
      ensures Valid() && list == old(list) && out == old(out)
      ensures ok <==> lo >= hi || |old(regions)| < POOL
      ensures usable == old(usable) + if ok then Range(lo, hi) else {}
      ensures regions == if ok && lo < hi then old(regions) + [Region(lo, hi)] else old(regions)
    {
      ok := true;
      if lo >= hi {
        assert Range(lo, hi) == {};
        return;
      }
      if |regions| >= POOL {
        return false;
      }
      AppendEffect(regions, Region(lo, hi));
      regions, usable := regions + [Region(lo, hi)], usable + Range(lo, hi);
      forall k | 0 <= k < |list| ensures LinkAt(k) { assert old(LinkAt(k)); }
    }

    /** The body of the loop of init_mem. */
    method AddEntry(e: MapEntry) returns (ok: bool)
      requires Valid() && Inside(e) !! usable && e.base + e.length < FOUR_GIB
      modifies this`regions, this`usable
      ensures Valid() && list == old(list) && out == old(out)
      ensures ok <==> Inside(e) == {} || |old(regions)| < POOL
      ensures ok ==> usable == old(usable) + Inside(e)
      ensures ok ==> |regions| == |old(regions)| + if Inside(e) == {} then 0 else 1
    {
      var lo, hi := RoundUp(e.base), RoundDown(e.base + e.length);
      InsideRounded(e);
      ok := true;
      if e.usable && e.length >= PAGE && lo < hi {
        assert lo / PAGE in Range(lo / PAGE, hi / PAGE);
        ok := AppendRegion(lo / PAGE, hi / PAGE);
      }
    }

    method NextEntry(entries: seq<MapEntry>, i: nat) returns (ok: bool)
      requires Valid() && i < |entries| && entries[i].base + entries[i].length < FOUR_GIB
      requires forall j, k :: 0 <= j < k < |entries| ==> Inside(entries[j]) !! Inside(entries[k])
      requires usable == Memory(entries[..i]) && |regions| == Pieces(entries[..i]) <= POOL
      modifies this`regions, this`usable
      ensures Valid() && list == old(list) && out == old(out)
      ensures if ok then usable == Memory(entries[..i + 1]) && |regions| == Pieces(entries[..i + 1]) <= POOL
              else Pieces(entries) > POOL
    {
      OneMore(entries, i);
      ok := AddEntry(entries[i]);
    }

    /** The loop of init_mem over the memory map.  Below 4 GiB, where the rounding is
        exact, the usable frames are those that lie inside a usable entry; the result
        is false where the source panics because the pool is exhausted, which is when
        more than POOL entries have any. */
    method InitMem(entries: seq<MapEntry>) returns (ok: bool)
      requires Valid() && list == [] && regions == [] && out == {} && usable == {}
      requires forall i :: 0 <= i < |entries| ==> entries[i].base + entries[i].length < FOUR_GIB
      requires forall i, j :: 0 <= i < j < |entries| ==> Inside(entries[i]) !! Inside(entries[j])
      modifies this
      ensures Valid() && list == [] && out == {}
      ensures ok <==> Pieces(entries) <= POOL
      ensures ok ==> usable == Memory(entries)
    {
      var i := 0;
      ok := true;
      assert entries[..0] == [];
      while i < |entries|
        invariant Valid() && list == [] && out == {} && i <= |entries|
        invariant usable == Memory(entries[..i]) && |regions| == Pieces(entries[..i]) <= POOL
      {
        ok := NextEntry(entries, i);
        if !ok {
          return;
        }
        i := i + 1;
      }
      assert entries[..|entries|] == entries;
    }

    /** push_free_page */
    method Push(page: nat)
      requires Valid() && page in out
      modifies this
      ensures Valid() && list == [page] + old(list) && out == old(out) - {page}
      ensures regions == old(regions) && usable == old(usable)
    {
      ghost var was := list;
      assert forall i :: 0 <= i < |was| ==> was[i] in Elements(was);
      next := next[page := head];
      head := Some(page);
      list, out := [page] + list, out - {page};
      forall i | 0 <= i < |list| ensures LinkAt(i) { assert i > 0 ==> old(LinkAt(i - 1)); }
      assert Elements(list) == Elements(was) + {page};
    }

    /** pop_free_page */
    method Pop() returns (page: Option<nat>)
      requires Valid()
      modifies this
      ensures Valid() && regions == old(regions) && usable == old(usable)
      ensures page.None? <==> old(list) == []
      ensures page.None? ==> list == old(list) && out == old(out)
      ensures page.Some? ==> old(list) == [page.value] + list && out == old(out) + {page.value}
      ensures page.Some? ==> page.value !in old(out)
    {
      page := head;
      if page.Some? {
        assert LinkAt(0);
        ghost var was := list;
        assert list[0] in Elements(list);
        head := next[page.value];
        list, out := list[1..], out + {page.value};
        forall i | 0 <= i < |list| ensures LinkAt(i) { assert old(LinkAt(i + 1)); }
        assert Elements(was) == Elements(list) + {was[0]};
      }
    }

    /** The region loops: the first region with n frames left. */
    method FindRegion(n: nat) returns (i: nat)
      ensures i <= |regions|
      ensures forall j :: 0 <= j < i ==> regions[j].end - regions[j].cur < n
      ensures i < |regions| ==> regions[i].end - regions[i].cur >= n
    {
      i := 0;
      while i < |regions| && regions[i].end - regions[i].cur < n
        invariant i <= |regions|
        invariant forall j :: 0 <= j < i ==> regions[j].end - regions[j].cur < n
      {
        i := i + 1;
      }
    }

    /** alloc_contiguous_from_regions and, with n = 1, alloc_from_regions_for_page_cache. */
    method FromRegions(n: nat) returns (page: Option<nat>, ghost i: nat)
      requires Valid() && 0 < n < MAX_PAGES
      modifies this
      ensures Valid() && list == old(list) && usable == old(usable)
      ensures page.None? <==> forall i :: 0 <= i < |old(regions)| ==> old(regions)[i].end - old(regions)[i].cur < n
      ensures page.None? ==> out == old(out) && regions == old(regions)
      ensures page.Some? ==> Taken(old(out), out, page.value, n)
      // the front of the first region that has enough
      ensures page.Some? ==>
        && i < |old(regions)| && page.value == old(regions)[i].cur && regions == Carve(old(regions), i, n)
        && (forall j :: 0 <= j < i ==> old(regions)[j].end - old(regions)[j].cur < n)
    {
      page := None;
      var r := FindRegion(n);
      i := r;
      if r < |regions| {
        var p := regions[r].cur;
        page := Some(p);
        CarveEffect(regions, r, n);
        out := out + Range(p, p + n);
        regions := Carve(regions, r, n);
        forall k | 0 <= k < |list| ensures LinkAt(k) { assert old(LinkAt(k)); }
      }
    }

    /** alloc_contiguous_from_freelist: the first run of n consecutive frames in list
        order, unlinked from the list. */
    method FromFreelist(n: nat) returns (page: Option<nat>, ghost i: nat)
      requires Valid() && n >= 2
      modifies this
      ensures Valid() && regions == old(regions) && usable == old(usable)
      ensures page.None? <==> forall k :: 0 <= k < |old(list)| ==> !RunAt(old(list), k, n)
      ensures page.None? ==> list == old(list) && out == old(out)
      ensures page.Some? ==> Taken(old(out), out, page.value, n)
      ensures page.Some? ==> i < |old(list)| && RunAt(old(list), i, n) && old(list)[i] == page.value
      ensures page.Some? ==> list == old(list)[..i] + old(list)[i + n..]
    {
      var prev, scan;
      prev, page, scan, i := FindRun(n);
      if page.Some? {
        ghost var was := list;
        CutRun(was, i, n);
        Unchain(prev, scan, i, n);
        out := out + Range(page.value, page.value + n);
      }
    }

    /** prev->next = scan->next, or the head if there is no prev. */
    method Unchain(prev: Option<nat>, scan: nat, ghost i: nat, ghost n: nat)
      requires Linked() && n >= 1 && i + n <= |list| && scan == list[i + n - 1]
      requires prev == if i == 0 then None else Some(list[i - 1])
      requires forall j, k :: 0 <= j < k < |list| ==> list[j] != list[k]
      modifies this`next, this`head, this`list
      ensures Linked() && list == old(list)[..i] + old(list)[i + n..]
    {
      assert LinkAt(i + n - 1) && (i > 0 ==> LinkAt(i - 1));
      if prev.Some? {
        next := next[prev.value := next[scan]];
      } else {
        head := next[scan];
      }
      list := list[..i] + list[i + n..];
      forall k | 0 <= k < |list| ensures LinkAt(k) {
        if k < i - 1 { assert old(LinkAt(k)); } else if k >= i { assert old(LinkAt(k + n)); }
      }
    }

    /** kalloc, kalloc_for_page_cache and kcalloc, which differ only in the bytes they
        leave in the page. */
    method Kalloc() returns (page: Option<nat>)
      requires Valid()
      modifies this
      ensures Valid() && usable == old(usable)
      ensures page.None? <==> old(list) == [] && old(regions) == []
      ensures page.None? ==> out == old(out)
      ensures page.Some? ==> Taken(old(out), out, page.value, 1)
      // the page freed last is handed out first
      ensures old(list) != [] ==> page == Some(old(list)[0]) && list == old(list)[1..] && regions == old(regions)
    {
      page := Pop();
      if page.None? {
        ghost var rs, i := regions, 0;
        page, i := FromRegions(1);
        if rs != [] { assert rs[0].cur < rs[0].end; }
      } else {
        assert Range(page.value, page.value + 1) == {page.value};
      }
    }

    /** kalloc_pages: the frames are consecutive whichever way they are found. */
    method KallocPages(n: nat) returns (page: Option<nat>)
      requires Valid() && n < MAX_PAGES
      modifies this
      ensures Valid() && usable == old(usable)
      ensures page.None? ==> out == old(out)
      ensures page.Some? ==> n > 0 && Taken(old(out), out, page.value, n)
      ensures n == 1 ==> (page.None? <==> old(list) == [] && old(regions) == [])
      // the free list comes first
      ensures n >= 2 && (exists k :: 0 <= k < |old(list)| && RunAt(old(list), k, n)) ==> regions == old(regions)
      ensures n >= 2 ==> (page.None? <==>
        && (forall k :: 0 <= k < |old(list)| ==> !RunAt(old(list), k, n))
        && (forall i :: 0 <= i < |old(regions)| ==> old(regions)[i].end - old(regions)[i].cur < n))
    {
      page := None;
      if n == 0 {
        return;
      }
      if n == 1 {
        page := Kalloc();
        return;
      }
      ghost var i;
      page, i := FromFreelist(n);
      if page.None? {
        page, i := FromRegions(n);
      }
    }

    /** kfree */
    method Kfree(page: Option<nat>)
      requires Valid() && (page.Some? ==> page.value in out)
      modifies this
      ensures Valid() && regions == old(regions) && usable == old(usable)
      ensures page.None? ==> list == old(list) && out == old(out)
      ensures page.Some? ==> list == [page.value] + old(list) && out == old(out) - {page.value}
    {
      if page.Some? {
        Push(page.value);
      }
    }

    /** kfree_pages: the frames end up on the list in descending order. */
    method KfreePages(page: Option<nat>, n: nat)
      requires Valid() && (page.Some? ==> Range(page.value, page.value + n) <= out)
      modifies this
      ensures Valid() && regions == old(regions) && usable == old(usable)
      ensures page.None? ==> list == old(list) && out == old(out)
      ensures page.Some? ==>
        list == Down(page.value, n) + old(list) && out == old(out) - Range(page.value, page.value + n)
    {
      if page.None? || n == 0 {
        assert page.Some? ==> Down(page.value, 0) + list == list;
        return;
      }
      var i := 0;
      while i < n
        invariant i <= n && Valid() && regions == old(regions) && usable == old(usable)
        invariant list == Pushed(old(list), page.value, i) && out == Without(old(out), page.value, i)
      {
        StillOut(old(out), page.value, i, n);
        Kfree(Some(page.value + i));
        i := i + 1;
      }
      PushedIs(old(list), page.value, n);
      WithoutIs(old(out), page.value, n);
    }

    /** Any sequence of calls by a client that frees only what it holds.  `held` maps the
        first frame of each allocation it holds to its length: no frame is ever handed
        out twice.  `trace` is the history: every call did what it should. */
    method Run(calls: seq<Call>)
      returns (held: map<nat, nat>, ghost owner: map<nat, nat>, ghost trace: seq<Moment>)
      requires Valid() && out == {}
      modifies this
      ensures Valid() && usable == old(usable)
      ensures owner.Keys == out && Exclusive(held, owner)
      ensures |trace| == |calls| + 1
      ensures trace[0] == Moment(old(list), old(regions), map[]) && trace[|calls|] == Moment(list, regions, held)
      ensures forall i :: 0 <= i < |calls| ==> Answered(calls[i], trace[i], trace[i + 1])
    {
      held, owner, trace := map[], map[], [Moment(list, regions, map[])];
      for i := 0 to |calls|
        invariant Valid() && usable == old(usable)
        invariant owner.Keys == out && Exclusive(held, owner)
        invariant |trace| == i + 1 && trace[0] == Moment(old(list), old(regions), map[])
        invariant trace[i] == Moment(list, regions, held)
        invariant forall j :: 0 <= j < i ==> Answered(calls[j], trace[j], trace[j + 1])
      {
        held, owner := Serve(calls[i], held, owner);
        trace := trace + [Moment(list, regions, held)];
      }
    }

    method Serve(call: Call, held: map<nat, nat>, ghost owner: map<nat, nat>)
      returns (held': map<nat, nat>, ghost owner': map<nat, nat>)
      requires Valid() && owner.Keys == out && Exclusive(held, owner)
      modifies this
      ensures Valid() && usable == old(usable) && owner'.Keys == out && Exclusive(held', owner')
      ensures Answered(call, Moment(old(list), old(regions), held), Moment(list, regions, held'))
    {
      held', owner' := held, owner;
      match call
      case Alloc(n) =>
        if n < MAX_PAGES {
          var page := KallocPages(n);
          if page.Some? {
            TakeExclusive(held, owner, out, page.value, n);
            held', owner' := held[page.value := n], TakeOwner(owner, page.value, n);
          }
        }
      case Free(p) =>
        if p in held {
          GiveExclusive(held, owner, p);
          KfreePages(Some(p), held[p]);
          held', owner' := held - {p}, owner - Range(p, p + held[p]);
        }
    }

    /** The two nested loops of alloc_contiguous_from_freelist: `it` is the first node of
        the run, `scan` its last, `prev` the node before it. */
    method FindRun(n: nat) returns (prev: Option<nat>, it: Option<nat>, scan: nat, ghost i: nat)
      requires Linked() && n >= 2
      ensures it.None? <==> forall k :: 0 <= k < |list| ==> !RunAt(list, k, n)
      ensures it.Some? ==> i < |list| && RunAt(list, i, n) && it.value == list[i] && scan == list[i + n - 1]
      ensures it.Some? ==> prev == if i == 0 then None else Some(list[i - 1])
    {
      prev, it, i, scan := None, head, 0, 0;
      while it.Some?
        invariant it == Entry(list, i) && i <= |list|
        invariant prev == if i == 0 then None else Entry(list, i - 1)
        invariant forall k :: 0 <= k < i ==> !RunAt(list, k, n)
        decreases |list| - i
      {
        var found := true;
        scan := it.value;
        var j := 1;
        while j < n && found
          invariant 1 <= j <= n && i + j <= |list|
          invariant scan == list[i + j - 1] && RunAt(list, i, j)
          invariant !found ==> !RunAt(list, i, n)
          decreases n - j, found
        {
          assert LinkAt(i + j - 1);
          var after := next[scan];
          if after.None? || after.value != it.value + j {
            found := false;
          } else {
            scan, j := after.value, j + 1;
          }
        }
        if found {
          return;
        }
        assert LinkAt(i);
        prev, it, i := it, next[it.value], i + 1;
      }
    }
  }

  /** Taking a run out of a list of distinct frames takes out those frames. */
  lemma CutRun(list: seq<nat>, i: nat, n: nat)
    requires RunAt(list, i, n) && n >= 1 && forall j, k :: 0 <= j < k < |list| ==> list[j] != list[k]
    ensures var cut := list[..i] + list[i + n..];
      && Elements(list) == Elements(cut) + Range(list[i], list[i] + n) && Elements(cut) !! Range(list[i], list[i] + n)
      && forall j, k :: 0 <= j < k < |cut| ==> cut[j] != cut[k]
  {
    var cut := list[..i] + list[i + n..];
    forall a | a in Range(list[i], list[i] + n) ensures a in list && a !in cut {
      var k := i + (a - list[i]);
      assert list[k] == a;
    }
    assert list == list[..i] + list[i..i + n] + list[i + n..];
    var run := list[i..i + n];
    forall a | a in run ensures a in Range(list[i], list[i] + n) {}
  }

  datatype Call = Alloc(n: nat) | Free(p: nat)

  datatype Moment = Moment(list: seq<nat>, regions: seq<Region>, held: map<nat, nat>)

  /** Neither the list nor a region has n consecutive frames. */
  ghost predicate NoneLeft(m: Moment, n: nat) {
    if n == 1 then m.list == [] && m.regions == []
    else
      && (forall k :: 0 <= k < |m.list| ==> !RunAt(m.list, k, n))
      && (forall i :: 0 <= i < |m.regions| ==> m.regions[i].end - m.regions[i].cur < n)
  }

  /** An allocation of at least one page fails exactly if nothing is left for it, and a
      block given back is first on the list. */
  ghost predicate Answered(call: Call, m: Moment, m': Moment) {
    match call
    case Alloc(n) =>
      if n == 0 || n >= MAX_PAGES || NoneLeft(m, n) then m'.held == m.held
      else exists p: nat :: p !in m.held && m'.held == m.held[p := n]
    case Free(p) =>
      if p !in m.held then m' == m
      else m' == Moment(Down(p, m.held[p]) + m.list, m.regions, m.held - {p})
  }

  /** `owner` sends each outstanding frame to the held allocation it is part of, so the
      allocations are disjoint and make up exactly the outstanding frames. */
  ghost predicate Exclusive(held: map<nat, nat>, owner: map<nat, nat>) {
    && (forall p {:trigger Covers(owner, p, held[p])} :: p in held ==> held[p] > 0 && Covers(owner, p, held[p]))
    && (forall a {:trigger owner[a]} :: a in owner ==> owner[a] in held && owner[a] <= a < owner[a] + held[owner[a]])
  }

  ghost predicate Covers(owner: map<nat, nat>, p: nat, n: nat) {
    forall a :: p <= a < p + n ==> a in owner && owner[a] == p
  }

  function TakeOwner(owner: map<nat, nat>, p: nat, n: nat): (r: map<nat, nat>)
    ensures r.Keys == owner.Keys + Range(p, p + n)
  {
    var taken := Range(p, p + n);
    map a | a in owner.Keys + taken :: if a in taken then p else owner[a]
  }

  lemma TakeExclusive(held: map<nat, nat>, owner: map<nat, nat>, out': set<nat>, p: nat, n: nat)
    requires Exclusive(held, owner) && n > 0 && Taken(owner.Keys, out', p, n)
    ensures p !in held && Exclusive(held[p := n], TakeOwner(owner, p, n)) && TakeOwner(owner, p, n).Keys == out'
  {
    var held', owner' := held[p := n], TakeOwner(owner, p, n);
    assert p in Range(p, p + n) && p !in owner;
    forall q | q in held ensures q in owner { assert Covers(owner, q, held[q]); }
    forall q | q in held' ensures held'[q] > 0 && Covers(owner', q, held'[q]) {
      if q == p {
        TakenCovers(owner, p, n);
      } else {
        assert Covers(owner, q, held[q]);
        OthersCover(owner, p, n, q, held[q]);
      }
    }
  }

  lemma TakenCovers(owner: map<nat, nat>, p: nat, n: nat)
    requires Range(p, p + n) !! owner.Keys
    ensures Covers(TakeOwner(owner, p, n), p, n)
  {
    forall a | p <= a < p + n ensures a in TakeOwner(owner, p, n) && TakeOwner(owner, p, n)[a] == p {
      assert a in Range(p, p + n);
    }
  }

  lemma OthersCover(owner: map<nat, nat>, p: nat, n: nat, q: nat, m: nat)
    requires Range(p, p + n) !! owner.Keys && Covers(owner, q, m)
    ensures Covers(TakeOwner(owner, p, n), q, m)
  {
    forall a | q <= a < q + m ensures a in TakeOwner(owner, p, n) && TakeOwner(owner, p, n)[a] == q {
      assert a in owner && a !in Range(p, p + n);
    }
  }

  lemma GiveExclusive(held: map<nat, nat>, owner: map<nat, nat>, p: nat)
    requires Exclusive(held, owner) && p in held
    ensures Range(p, p + held[p]) <= owner.Keys
    ensures Exclusive(held - {p}, owner - Range(p, p + held[p]))
  {
    var held', owner' := held - {p}, owner - Range(p, p + held[p]);
    assert Covers(owner, p, held[p]);
    forall q | q in held' ensures held'[q] > 0 && Covers(owner', q, held'[q]) {
      assert Covers(owner, q, held[q]);
      forall a | q <= a < q + held[q] ensures a in owner' && owner'[a] == q { assert owner[a] == q; }
    }
    forall a | a in owner' ensures owner'[a] in held' { assert owner[a] in held; }
  }

  /** Two held allocations share no frame. */
  lemma NeverTwice(held: map<nat, nat>, owner: map<nat, nat>, p: nat, q: nat, a: nat)
    requires Exclusive(held, owner) && p in held && q in held && p <= a < p + held[p] && q <= a < q + held[q]
    ensures p == q
  {
    assert Covers(owner, p, held[p]) && Covers(owner, q, held[q]);
    assert owner[a] == p && owner[a] == q;
  }

  /** A multi-page block that was just freed is not found again on the list by
      kalloc_pages: its frames are listed in descending order, the search wants them
      ascending. */
  lemma FreedNotReused(p: nat, n: nat, rest: seq<nat>, i: nat, m: nat)
    requires 0 < n && i < n && m >= 2
    requires forall j, k :: 0 <= j < k < |Down(p, n) + rest| ==> (Down(p, n) + rest)[j] != (Down(p, n) + rest)[k]
    ensures RunAt(Down(p, n) + rest, i, m) ==> n == 1
  {
    var list := Down(p, n) + rest;
    assert i + 1 < n ==> list[i + 1] == list[i] - 1;
    assert n > 1 && i == n - 1 ==> list[n - 2] == list[i] + 1;
    assert RunAt(list, i, m) ==> list[i + 1] == list[i] + 1;
  }

  function Entry(list: seq<nat>, i: nat): (e: Option<nat>) {
    if i < |list| then Some(list[i]) else None
  }

  /** n consecutive frames from p on, none of them out before, went out. */
  ghost predicate Taken(out: set<nat>, out': set<nat>, p: nat, n: nat) {
    Range(p, p + n) !! out && out' == out + Range(p, p + n)
  }
}
