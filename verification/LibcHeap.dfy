/** The libc heap: the Kernighan and Ritchie allocator of libc/src/malloc.c.

    Memory is an unbounded array of 16-byte units and every address is a unit
    index.  A header is the unit in front of a block; its two fields are kept in
    the maps `next` (s.ptr) and `size` (s.size).  The list node `base` is static
    data of the program, so it lies below everything `sbrk` returns.

    The ghost map `owner` sends every unit obtained from `sbrk` to the header of
    the block it is in.  Being a function, it says that blocks never overlap. */
module LibcHeap {
  import opened Prelude

  const UNIT: nat := 16
  const MIN_UNITS: nat := 4096
  const SIZE_T: nat := 0x1_0000_0000_0000_0000
  const NULL: int := 0

  /** Number of units for a request, header included, in 64-bit arithmetic. */
  function NUnits(nbytes: nat): (n: nat)
    ensures 1 <= n <= SIZE_T / UNIT
  {
    (nbytes + UNIT - 1) % SIZE_T / UNIT + 1
  }

  /** Bytes a client can use in a block of n units. */
  function Payload(n: int): (bytes: int) {
    UNIT * (n - 1)
  }

  /** The block is big enough exactly when the rounding does not wrap around. */
  lemma PayloadSuffices(nbytes: nat)
    requires nbytes < SIZE_T
    ensures Payload(NUnits(nbytes)) >= nbytes <==> nbytes + UNIT - 1 < SIZE_T
    ensures nbytes + UNIT - 1 < SIZE_T ==> Payload(NUnits(nbytes)) < nbytes + UNIT
  {
    if nbytes + UNIT - 1 >= SIZE_T {
      assert (nbytes + UNIT - 1) % SIZE_T == nbytes + UNIT - 1 - SIZE_T;
    }
  }

  // ---------------------------------------------------------------- the arena

  /** A snapshot of the heap.  `ring` lists the free list in address order,
      starting at the base node, and `free` holds its other members; `live` holds
      the headers handed to clients. */
  datatype Arena = Arena(base: int, next: map<int, int>, size: map<int, int>, ring: seq<int>,
                         free: set<int>, live: set<int>, owner: map<int, int>)
  {
    function Next(b: int): int { if b in next then next[b] else NULL }

    function Size(b: int): int { if b in size then size[b] else 0 }

    /** First unit past the block of header b. */
    function End(b: int): int { b + Size(b) }

    predicate IsBlock(b: int) { b in live || b in free }

    /** The ring starts at base, and s.ptr follows it all the way round. */
    ghost predicate Chained() {
      && |ring| >= 1 && ring[0] == base
      && forall i :: 0 <= i < |ring| ==> LinkAt(i)
    }

    /** The other nodes of the ring are the free blocks. */
    ghost predicate Members() {
      && (forall i :: 1 <= i < |ring| ==> ring[i] in free)
      && (forall b :: b in free ==> b in ring)
    }

    /** s.ptr of the i-th node is the node after it. */
    ghost predicate LinkAt(i: int)
      requires 0 <= i < |ring|
    {
      Next(ring[i]) == ring[Succ(i, |ring|)]
    }

    /** One turn of the ring visits ever higher blocks, then wraps to base. */
    ghost predicate Ascending() {
      && Size(base) == 0
      && (forall i, j :: 0 <= i < j < |ring| ==> Below(i, j))
    }

    ghost predicate Below(i: int, j: int)
      requires 0 <= i < |ring| && 0 <= j < |ring|
    {
      ring[i] < ring[j]
    }

    /** The block of header b is not empty and owns exactly its units. */
    ghost predicate Covers(b: int) {
      && b > base && Size(b) >= 1
      && forall a :: b <= a < End(b) ==> a in owner && owner[a] == b
    }

    ghost predicate Covered() { forall b {:trigger Covers(b)} :: IsBlock(b) ==> Covers(b) }

    ghost predicate OwnedAt(a: int)
      requires a in owner
    {
      IsBlock(owner[a]) && owner[a] <= a < End(owner[a])
    }

    ghost predicate Owned() { forall a {:trigger OwnedAt(a)} :: a in owner ==> OwnedAt(a) }

    /** Free and live blocks tile exactly the units in `owner`. */
    ghost predicate Tiled() { free !! live && Covered() && Owned() }

    /** The free block at index i does not end where the next one starts. */
    ghost predicate ApartAt(i: int)
      requires 0 <= i < |ring| - 1
    {
      End(ring[i]) != ring[i + 1]
    }

    ghost predicate Apart() { forall i :: 0 <= i < |ring| - 1 ==> ApartAt(i) }

    ghost predicate WeakInv() { Chained() && Members() && Ascending() && Tiled() }

    ghost predicate Inv() { WeakInv() && Apart() }
  }

  function Succ(i: nat, n: nat): (j: nat)
    requires i < n
    ensures j < n
  {
    if i + 1 < n then i + 1 else 0
  }

  /** Steps along the ring from index i to index j. */
  function Dist(i: nat, j: nat, n: nat): (d: nat)
    requires i < n && j < n
  {
    if i <= j then j - i else j + n - i
  }

  /** Two different blocks share no unit. */
  lemma BlocksDisjoint(h: Arena, b: int, c: int)
    requires h.Tiled() && h.IsBlock(b) && h.IsBlock(c) && b != c
    ensures h.End(b) <= c || h.End(c) <= b
  {
    assert h.Covers(b) && h.Covers(c);
    assert b < c < h.End(b) ==> h.owner[c] == b;
    assert c < b < h.End(c) ==> h.owner[b] == c;
  }

  // ------------------------------------------------- the list operations

  /** Put the live block b into the ring after index k, without merging. */
  function Insert(h: Arena, k: nat, b: int): (h': Arena)
    requires k < |h.ring|
  {
    h.(next := h.next[b := h.Next(h.ring[k])][h.ring[k] := b],
       ring := h.ring[..k + 1] + [b] + h.ring[k + 1..],
       free := h.free + {b}, live := h.live - {b})
  }

  /** Take the node at index k out of the ring. */
  function Drop(h: Arena, k: nat): (h': Arena)
    requires 0 < k < |h.ring|
  {
    h.(next := h.next[h.ring[k - 1] := h.Next(h.ring[k])],
       ring := h.ring[..k] + h.ring[k + 1..],
       free := h.free - {h.ring[k]})
  }

  /** Merge the free block at index k + 1 into the one at index k. */
  function Merge(h: Arena, k: nat): (h': Arena)
    requires k + 1 < |h.ring|
  {
    var p, q := h.ring[k], h.ring[k + 1];
    Drop(h, k + 1).(
      size := h.size[p := h.Size(p) + h.Size(q)],
      owner := map a | a in h.owner :: if h.owner[a] == q then p else h.owner[a])
  }

  /** Hand out the whole free block at index k. */
  function Unlink(h: Arena, k: nat): (h': Arena)
    requires 0 < k < |h.ring|
  {
    Drop(h, k).(live := h.live + {h.ring[k]})
  }

  /** Hand out the last n units of the free block at index k. */
  function Split(h: Arena, k: nat, n: nat): (h': Arena)
    requires 0 < k < |h.ring| && 0 < n < h.Size(h.ring[k])
  {
    var p := h.ring[k];
    var q := h.End(p) - n;
    h.(size := h.size[p := h.Size(p) - n][q := n],
       live := h.live + {q},
       owner := map a | a in h.owner :: if q <= a < q + n then q else h.owner[a])
  }

  /** The units p, p + 1, ..., p + n - 1. */
  function Span(p: int, n: nat): (s: set<int>)
    ensures forall a :: a in s <==> p <= a < p + n
  {
    if n == 0 then {} else Span(p, n - 1) + {p + n - 1}
  }

  /** Treat the n fresh units at p as a live block. */
  function Grow(h: Arena, p: int, n: nat): (h': Arena) {
    h.(size := h.size[p := n], live := h.live + {p},
       owner := map a | a in h.owner.Keys + Span(p, n) :: if a in h.owner then h.owner[a] else p)
  }

  /** The node at index k is the place for b: b lies between it and its successor. */
  ghost predicate Place(h: Arena, k: nat, b: int) {
    k < |h.ring| && h.ring[k] < b && (k + 1 < |h.ring| ==> b < h.ring[k + 1])
  }

  lemma InsertAscends(h: Arena, k: nat, b: int)
    requires h.Chained() && h.Ascending() && Place(h, k, b)
    ensures Insert(h, k, b).Ascending()
  {
    var h' := Insert(h, k, b);
    forall i, j | 0 <= i < j < |h'.ring| ensures h'.Below(i, j) {
      if j == k + 1 {
        assert i < k ==> h.Below(i, k);
      } else if i == k + 1 {
        assert j > k + 2 ==> h.Below(k + 1, j - 1);
      } else {
        assert h.Below(if i <= k then i else i - 1, if j <= k then j else j - 1);
      }
    }
  }

  lemma InsertChains(h: Arena, k: nat, b: int)
    requires h.Chained() && h.Ascending() && Place(h, k, b)
    ensures Insert(h, k, b).Chained()
  {
    var h' := Insert(h, k, b);
    InsertAscends(h, k, b);
    forall i | 0 <= i < |h'.ring| ensures h'.LinkAt(i) {
      if i < k {
        assert h.LinkAt(i) && h'.Below(i, k) && h'.Below(i, k + 1);
      } else if i > k + 1 {
        assert h.LinkAt(i - 1) && h'.Below(k + 1, i) && h'.Below(k, i);
      } else {
        assert h.LinkAt(k) && h'.Below(k, k + 1);
      }
    }
  }

  lemma InsertMembers(h: Arena, k: nat, b: int)
    requires h.Members() && k < |h.ring|
    ensures Insert(h, k, b).Members()
  {
    assert h.ring == h.ring[..k + 1] + h.ring[k + 1..];
  }

  lemma InsertTiles(h: Arena, k: nat, b: int)
    requires h.Tiled() && k < |h.ring| && b in h.live
    ensures Insert(h, k, b).Tiled()
  {
    var h' := Insert(h, k, b);
    forall c | h'.IsBlock(c) ensures h'.Covers(c) { assert h.Covers(c); }
    forall a | a in h'.owner ensures h'.OwnedAt(a) { assert h.OwnedAt(a); }
  }

  lemma InsertKeeps(h: Arena, k: nat, b: int)
    requires h.Inv() && b in h.live && Place(h, k, b)
    ensures Insert(h, k, b).WeakInv() && ApartBut(Insert(h, k, b), {k, k + 1})
  {
    InsertChains(h, k, b);
    InsertMembers(h, k, b);
    InsertAscends(h, k, b);
    InsertTiles(h, k, b);
    InsertApart(h, k, b);
  }

  lemma InsertApart(h: Arena, k: nat, b: int)
    requires h.Apart() && k < |h.ring|
    ensures ApartBut(Insert(h, k, b), {k, k + 1})
  {
    var h' := Insert(h, k, b);
    forall i | 0 <= i < |h'.ring| - 1 && i != k && i != k + 1 ensures h'.ApartAt(i) {
      if i < k {
        assert h.ApartAt(i) && h'.ring[i] == h.ring[i] && h'.ring[i + 1] == h.ring[i + 1];
      } else {
        assert h.ApartAt(i - 1) && h'.ring[i] == h.ring[i - 1] && h'.ring[i + 1] == h.ring[i];
      }
    }
  }

  lemma DropAscends(h: Arena, k: nat)
    requires h.Ascending() && 0 < k < |h.ring|
    ensures Drop(h, k).Ascending()
  {
    var h' := Drop(h, k);
    forall i, j | 0 <= i < j < |h'.ring| ensures h'.Below(i, j) {
      assert h.Below(if i < k then i else i + 1, if j < k then j else j + 1);
    }
  }

  lemma DropChains(h: Arena, k: nat)
    requires h.Chained() && h.Ascending() && 0 < k < |h.ring|
    ensures Drop(h, k).Chained()
  {
    var h' := Drop(h, k);
    forall i | 0 <= i < |h'.ring| ensures h'.LinkAt(i) {
      if i < k - 1 {
        assert h.LinkAt(i) && h.Below(i, k - 1);
      } else if i >= k {
        assert h.LinkAt(i + 1) && h.Below(k - 1, i + 1);
      } else {
        assert h.LinkAt(k);
      }
    }
  }

  lemma DropMembers(h: Arena, k: nat)
    requires h.Members() && h.Ascending() && 0 < k < |h.ring|
    ensures Drop(h, k).Members()
  {
    var h' := Drop(h, k);
    assert h.ring == h.ring[..k] + [h.ring[k]] + h.ring[k + 1..];
    forall i | 1 <= i < |h'.ring| ensures h'.ring[i] in h'.free {
      assert if i < k then h.Below(i, k) else h.Below(k, i + 1);
    }
  }

  /** An operation that leaves the list alone keeps what is said about it. */
  lemma SameList(h: Arena, h': Arena)
    requires h.Chained() && h.Members() && h.Ascending()
    requires h'.base == h.base && h'.ring == h.ring && h'.next == h.next && h'.free == h.free
    requires h'.Size(h.base) == 0
    ensures h'.Chained() && h'.Members() && h'.Ascending()
  {
    forall i | 0 <= i < |h'.ring| ensures h'.LinkAt(i) { assert h.LinkAt(i); }
    forall i, j | 0 <= i < j < |h'.ring| ensures h'.Below(i, j) { assert h.Below(i, j); }
  }

  lemma MergeKeeps(h: Arena, k: nat)
    requires h.WeakInv() && 0 < k && k + 1 < |h.ring| && !h.ApartAt(k)
    ensures Merge(h, k).WeakInv()
  {
    DropChains(h, k + 1);
    DropMembers(h, k + 1);
    DropAscends(h, k + 1);
    assert h.Below(0, k);
    SameList(Drop(h, k + 1), Merge(h, k));
    MergeTiles(h, k);
  }

  lemma MergeTiles(h: Arena, k: nat)
    requires h.WeakInv() && 0 < k && k + 1 < |h.ring| && !h.ApartAt(k)
    ensures Merge(h, k).Tiled()
  {
    var h' := Merge(h, k);
    assert h.Covers(h.ring[k]) && h.Covers(h.ring[k + 1]) && h.Below(k, k + 1);
    forall c | h'.IsBlock(c) ensures h'.Covers(c) { assert h.Covers(c); }
    forall a | a in h'.owner ensures h'.OwnedAt(a) { assert h.OwnedAt(a); }
  }

  lemma UnlinkKeeps(h: Arena, k: nat)
    requires h.Inv() && 0 < k < |h.ring|
    ensures Unlink(h, k).Inv()
  {
    var h' := Unlink(h, k);
    DropChains(h, k);
    DropMembers(h, k);
    DropAscends(h, k);
    SameList(Drop(h, k), h');
    forall c | h'.IsBlock(c) ensures h'.Covers(c) { assert h.Covers(c); }
    forall a | a in h'.owner ensures h'.OwnedAt(a) { assert h.OwnedAt(a); }
    forall i | 0 <= i < |h'.ring| - 1 ensures h'.ApartAt(i) {
      assert h.Covers(h.ring[k]);
      if i < k - 1 {
        assert h.ApartAt(i);
      } else if i >= k {
        assert h.ApartAt(i + 1);
      } else {
        assert h.Below(i, k) && (k + 1 < |h.ring| ==> h.Below(k, k + 1));
        if i > 0 { BlocksDisjoint(h, h.ring[i], h.ring[k]); }
      }
    }
  }

  lemma SplitKeeps(h: Arena, k: nat, n: nat)
    requires h.Inv() && 0 < k < |h.ring| && 0 < n < h.Size(h.ring[k])
    ensures Split(h, k, n).Inv()
  {
    var h' := Split(h, k, n);
    assert h.Covers(h.ring[k]) && h.Below(0, k);
    SameList(h, h');
    SplitTiles(h, k, n);
    forall i | 0 <= i < |h'.ring| - 1 ensures h'.ApartAt(i) { SplitApart(h, k, n, i); }
  }

  lemma SplitTiles(h: Arena, k: nat, n: nat)
    requires h.Inv() && 0 < k < |h.ring| && 0 < n < h.Size(h.ring[k])
    ensures Split(h, k, n).Tiled()
  {
    var h' := Split(h, k, n);
    var p := h.ring[k];
    var q := h.End(p) - n;
    assert h.Covers(p) && h.owner[q] == p;
    assert h.IsBlock(q) ==> h.Covers(q);
    forall c | h'.IsBlock(c) ensures h'.Covers(c) { SplitCovers(h, k, n, c); }
    forall a | a in h'.owner ensures h'.OwnedAt(a) { assert h.OwnedAt(a); }
  }

  /** After a split every block owns exactly its units. */
  lemma SplitCovers(h: Arena, k: nat, n: nat, c: int)
    requires h.Inv() && 0 < k < |h.ring| && 0 < n < h.Size(h.ring[k]) && Split(h, k, n).IsBlock(c)
    ensures Split(h, k, n).Covers(c)
  {
    var h' := Split(h, k, n);
    var p := h.ring[k];
    var q := h.End(p) - n;
    assert h.Covers(p) && h.owner[q] == p;
    if c == q {
      assert h'.End(c) == h.End(p);
      forall a | q <= a < h'.End(q) ensures a in h'.owner && h'.owner[a] == q { assert a in h.owner; }
    } else {
      assert h.Covers(c);
      forall a | c <= a < h'.End(c)
        ensures a in h'.owner && h'.owner[a] == c
      {
        assert a in h.owner && h.owner[a] == c;
      }
    }
  }

  lemma SplitApart(h: Arena, k: nat, n: nat, i: nat)
    requires h.Inv() && 0 < k < |h.ring| && 0 < n < h.Size(h.ring[k]) && i < |h.ring| - 1
    ensures Split(h, k, n).ApartAt(i)
  {
    var p := h.ring[k];
    assert h.Covers(p) && h.owner[h.End(p) - n] == p;
    assert h.ApartAt(i) && h.Covers(h.ring[i + 1]);
    if i > 0 { assert h.Covers(h.ring[i]); }
    assert i < k ==> h.Below(i, k);
    assert i > k ==> h.Below(k, i);
    if i == k {
      assert h.Below(k, k + 1);
      BlocksDisjoint(h, p, h.ring[k + 1]);
    }
  }

  lemma GrowKeeps(h: Arena, p: int, n: nat)
    requires h.Inv() && 0 < n && p > h.base
    requires forall a :: a in h.owner ==> a < p
    ensures Grow(h, p, n).Inv()
  {
    var h' := Grow(h, p, n);
    assert h.IsBlock(p) ==> h.Covers(p) && p in h.owner;
    SameList(h, h');
    forall c | h'.IsBlock(c) ensures h'.Covers(c) { assert c != p ==> h.Covers(c); }
    forall a | a in h'.owner ensures h'.OwnedAt(a) { assert a in h.owner ==> h.OwnedAt(a); }
    forall i | 0 <= i < |h'.ring| - 1 ensures h'.ApartAt(i) { assert h.ApartAt(i); }
  }

  // ---------------------------------------------------------------- free

  /** The index i is not one where free may still have to merge. */
  ghost predicate ApartBut(h: Arena, skip: set<int>) {
    forall i :: 0 <= i < |h.ring| - 1 && i !in skip ==> h.ApartAt(i)
  }

  /** First step of free: b joins the list. */
  lemma Inserted(h: Arena, k: nat, b: int) returns (h': Arena)
    requires h.Inv() && b in h.live && Place(h, k, b)
    ensures h'.WeakInv() && ApartBut(h', {k, k + 1}) && h'.base == h.base
    ensures h'.next == h.next[b := h.Next(h.ring[k])][h.ring[k] := b] && h'.size == h.size
    ensures |h'.ring| == |h.ring| + 1 && h'.ring[k] == h.ring[k] && h'.ring[k + 1] == b
    ensures k + 1 < |h.ring| ==> h'.ring[k + 2] == h.ring[k + 1]
    ensures h'.live == h.live - {b} && h'.owner.Keys == h.owner.Keys
  {
    h' := Insert(h, k, b);
    InsertKeeps(h, k, b);
  }

  /** The block at index k absorbs the one after it if the two touch. */
  lemma Absorbed(h: Arena, k: nat, skip: set<int>) returns (h': Arena)
    requires h.WeakInv() && ApartBut(h, skip + {k}) && k < |h.ring|
    requires forall i :: i in skip ==> i < k
    ensures h'.WeakInv() && ApartBut(h', skip) && h'.base == h.base
    ensures h'.live == h.live && h'.owner.Keys == h.owner.Keys
    ensures forall c :: c in h.live ==> h'.Size(c) == h.Size(c)
    ensures k < |h'.ring| && forall i :: 0 <= i <= k ==> h'.ring[i] == h.ring[i]
    ensures k + 1 < |h.ring| && h.End(h.ring[k]) == h.ring[k + 1] ==>
      && h'.next == h.next[h.ring[k] := h.Next(h.ring[k + 1])]
      && h'.size == h.size[h.ring[k] := h.Size(h.ring[k]) + h.Size(h.ring[k + 1])]
    ensures !(k + 1 < |h.ring| && h.End(h.ring[k]) == h.ring[k + 1]) ==> h' == h
  {
    h' := h;
    if k + 1 < |h.ring| && h.End(h.ring[k]) == h.ring[k + 1] {
      assert h.Below(k, k + 1) && !h.ApartAt(k);
      h' := Merge(h, k);
      MergeKeeps(h, k);
      MergeApart(h, k, skip);
      MergeSizes(h, k);
      MergeMaps(h, k);
    } else {
      forall i | 0 <= i < |h.ring| - 1 && i !in skip ensures h.ApartAt(i) {
        if i != k { assert i !in skip + {k}; }
      }
    }
  }

  /** A merge leaves the live blocks and the ring up to k alone. */
  lemma MergeMaps(h: Arena, k: nat)
    requires k + 1 < |h.ring|
    ensures Merge(h, k).next == h.next[h.ring[k] := h.Next(h.ring[k + 1])]
    ensures Merge(h, k).size == h.size[h.ring[k] := h.Size(h.ring[k]) + h.Size(h.ring[k + 1])]
  {
  }

  lemma MergeSizes(h: Arena, k: nat)
    requires h.WeakInv() && 0 < k && k + 1 < |h.ring|
    ensures var h' := Merge(h, k);
      && h'.live == h.live && h'.owner.Keys == h.owner.Keys && (forall c :: c in h.live ==> h'.Size(c) == h.Size(c))
      && k < |h'.ring| && (forall i :: 0 <= i <= k ==> h'.ring[i] == h.ring[i])
  {
    assert h.ring[k] in h.free && h.ring[k] !in h.live;
  }

  lemma MergeApartBelow(h: Arena, k: nat, i: nat)
    requires h.WeakInv() && k + 1 < |h.ring| && i < k && h.ApartAt(i)
    ensures Merge(h, k).ApartAt(i)
  {
    assert h.Below(i, k);
  }

  lemma MergeApartAbove(h: Arena, k: nat, i: nat)
    requires h.WeakInv() && k <= i && i + 2 < |h.ring| && h.End(h.ring[k]) == h.ring[k + 1] && h.ApartAt(i + 1)
    ensures Merge(h, k).ApartAt(i)
  {
    assert h.Below(k, i + 1);
  }

  lemma MergeApart(h: Arena, k: nat, skip: set<int>)
    requires h.WeakInv() && ApartBut(h, skip + {k}) && k + 1 < |h.ring| && h.End(h.ring[k]) == h.ring[k + 1]
    requires forall i :: i in skip ==> i < k
    ensures ApartBut(Merge(h, k), skip)
  {
    var h' := Merge(h, k);
    forall i: nat | i < |h'.ring| - 1 && i !in skip ensures h'.ApartAt(i) {
      if i < k { MergeApartBelow(h, k, i); } else { MergeApartAbove(h, k, i); }
    }
  }

  /** What free does, once the place k for b is found: b joins the list, the block
      above is merged into b if they touch, then b into the block below if they
      touch.  Other live blocks and the tiled memory stay the same, and the units
      of b are now in the node at index k or in the one after it. */
  lemma Released(h: Arena, k: nat, b: int) returns (h': Arena)
    requires h.Inv() && b in h.live && Place(h, k, b)
    ensures h'.Inv() && h'.base == h.base
    ensures h'.next == NextMap(h, h.ring[k], b) && h'.size == SizeMap(h, h.ring[k], b)
    ensures h'.live == h.live - {b} && h'.owner.Keys == h.owner.Keys
    ensures forall c :: c in h'.live ==> h'.Size(c) == h.Size(c)
    ensures k < |h'.ring| && h'.ring[k] == h.ring[k]
    ensures || (k + 1 < |h'.ring| && h'.Size(h'.ring[k + 1]) >= h.Size(b))
            || h'.Size(h'.ring[k]) >= h.Size(b)
  {
    var p := h.ring[k];
    var h2 := JoinedAbove(h, k, b);
    assert h.Covers(b) && (k > 0 ==> h.Covers(p));
    AtNode(h, k);
    h' := Absorbed(h2, k, {});
  }

  /** free up to and including its first test. */
  lemma JoinedAbove(h: Arena, k: nat, b: int) returns (h': Arena)
    requires h.Inv() && b in h.live && Place(h, k, b)
    ensures h'.WeakInv() && ApartBut(h', {k}) && h'.base == h.base
    ensures k + 1 < |h'.ring| && h'.ring[k] == h.ring[k] && h'.ring[k + 1] == b
    ensures h'.next == h.next[b := PtrAfter(h, h.ring[k], b)][h.ring[k] := b]
    ensures h'.size == h.size[b := SizeAfter(h, h.ring[k], b)] && SizeAfter(h, h.ring[k], b) >= h.Size(b)
    ensures h'.live == h.live - {b} && h'.owner.Keys == h.owner.Keys
    ensures forall c :: c in h'.live ==> h'.Size(c) == h.Size(c)
  {
    assert h.Covers(b);
    AtNode(h, k);
    if k + 1 < |h.ring| { assert h.Covers(h.ring[k + 1]); }
    var h1 := Inserted(h, k, b);
    h' := Absorbed(h1, k + 1, {k});
  }

  /** A block above base has exactly one place. */
  lemma FindPlace(h: Arena, b: int) returns (k: nat)
    requires h.Chained() && h.Members() && h.Ascending() && b > h.base && b !in h.free
    ensures Place(h, k, b) && forall j: nat :: Place(h, j, b) ==> j == k
  {
    k := 0;
    while k + 1 < |h.ring| && h.ring[k + 1] < b
      invariant k < |h.ring| && h.ring[k] < b
    {
      k := k + 1;
    }
    forall j: nat | Place(h, j, b) ensures j == k {
      assert j + 1 < k ==> h.Below(j + 1, k);
      assert k + 1 < j ==> h.Below(k + 1, j);
    }
  }

  /** What the search loop sees at the node of index k. */
  lemma AtNode(h: Arena, k: nat)
    requires h.Chained() && h.Ascending() && k < |h.ring|
    ensures h.Next(h.ring[k]) == h.ring[Succ(k, |h.ring|)]
    ensures k + 1 < |h.ring| ==> h.ring[k] < h.ring[k + 1]
    ensures h.base <= h.ring[k]
  {
    assert h.LinkAt(k);
    assert k + 1 < |h.ring| ==> h.Below(k, k + 1);
    assert 0 < k ==> h.Below(0, k);
  }

  // The header writes of free, in its own order: s.ptr and s.size of b after the
  // first test, and both maps after the second.

  function PtrAfter(h: Arena, p: int, b: int): int {
    if h.End(b) == h.Next(p) then h.Next(h.Next(p)) else h.Next(p)
  }

  function SizeAfter(h: Arena, p: int, b: int): int {
    if h.End(b) == h.Next(p) then h.Size(b) + h.Size(h.Next(p)) else h.Size(b)
  }

  function NextMap(h: Arena, p: int, b: int): map<int, int> {
    h.next[b := PtrAfter(h, p, b)][p := if h.End(p) == b then PtrAfter(h, p, b) else b]
  }

  function SizeMap(h: Arena, p: int, b: int): map<int, int> {
    var s := h.size[b := SizeAfter(h, p, b)];
    if h.End(p) == b then s[p := h.Size(p) + SizeAfter(h, p, b)] else s
  }

  // ---------------------------------------------------------------- the heap

  class Heap {
    const base: int
    var next: map<int, int>
    var size: map<int, int>
    var freep: int
    ghost var arena: Arena
    var brk: int  // first unit above everything sbrk has returned

    ghost predicate Valid()
      reads this
    {
      && NULL < base < brk
      && arena.base == base && arena.next == next && arena.size == size
      && (forall a :: a in arena.owner ==> a < brk)
      && if freep == NULL
         then arena.live == {} && arena.free == {} && arena.owner == map[]
         else arena.Inv() && freep in arena.ring
    }

    function Next(b: int): int
      reads this
    {
      if b in next then next[b] else NULL
    }

    function Size(b: int): int
      reads this
    {
      if b in size then size[b] else 0
    }

    constructor (base: int, brk: int)
      requires NULL < base < brk
      ensures Valid() && freep == NULL && this.base == base && this.brk == brk
      ensures arena.live == {} && arena.owner == map[]
    {
      this.base, this.brk, freep := base, brk, NULL;
      next, size := map[], map[];
      arena := Arena(base, map[], map[], [], {}, {}, map[]);
    }

    /** The search loop of free: it ends, at the place of the block. */
    method Search(bp: int) returns (p: int, ghost k: nat)
      requires Valid() && bp in arena.live
      ensures Place(arena, k, bp) && p == arena.ring[k]
    {
      assert arena.Covers(bp);
      ghost var goal := FindPlace(arena, bp);
      p := freep;
      k :| 0 <= k < |arena.ring| && arena.ring[k] == p;
      while !(bp > p && bp < Next(p))
        invariant k < |arena.ring| && arena.ring[k] == p
        decreases Dist(k, goal, |arena.ring|)
      {
        AtNode(arena, k);
        if p >= Next(p) && (bp > p || bp < Next(p)) {
          break;
        }
        p, k := Next(p), Succ(k, |arena.ring|);
      }
      AtNode(arena, k);
    }

    /** The header writes of free. */
    method Splice(p: int, bp: int)
      requires Valid() && freep != NULL && bp in arena.live && p in arena.ring
      requires Next(p) != bp && p != bp
      modifies this`next, this`size
      ensures next == NextMap(arena, p, bp) && size == SizeMap(arena, p, bp)
    {
      ghost var h := arena;
      assert h.Covers(bp);
      if bp + Size(bp) == Next(p) {
        size := size[bp := Size(bp) + Size(Next(p))];
        next := next[bp := Next(Next(p))];
      } else {
        next := next[bp := Next(p)];
      }
      assert size == h.size[bp := SizeAfter(h, p, bp)];
      if p + Size(p) == bp {
        size := size[p := Size(p) + Size(bp)];
        next := next[p := Next(bp)];
      } else {
        next := next[p := bp];
      }
    }

    /** free: the block goes to the list, merged with the free blocks it touches.
        What the list becomes is fixed by Valid(): it holds the maximal runs of
        units that belong to no live block. */
    method Free(ap: int) returns (ghost k: nat)
      requires Valid() && (ap == NULL || ap - 1 in arena.live)
      modifies this
      ensures Valid() && brk == old(brk) && (freep == NULL <==> old(freep) == NULL)
      ensures ap == NULL ==> arena == old(arena) && freep == old(freep)
      ensures ap != NULL ==> arena.live == old(arena.live) - {ap - 1}
      ensures arena.owner.Keys == old(arena.owner.Keys)
      ensures forall c :: c in arena.live ==> arena.Size(c) == old(arena.Size(c))
      ensures ap != NULL ==> k < |arena.ring| && arena.ring[k] == freep
      ensures ap != NULL ==>
        || (k + 1 < |arena.ring| && arena.Size(arena.ring[k + 1]) >= old(arena.Size(ap - 1)))
        || arena.Size(arena.ring[k]) >= old(arena.Size(ap - 1))
    {
      k := 0;
      if ap == NULL {
        return;
      }
      var p;
      p, k := Search(ap - 1);
      ghost var h := arena;
      AtNode(h, k);
      assert h.Covers(ap - 1);
      assert p in h.ring;
      Splice(p, ap - 1);
      freep := p;
      arena := Released(h, k, ap - 1);
    }

    /** morecore: `grant` is the answer of sbrk.  The new memory joins the list, and
        afterwards freep or the node after it holds at least nu units. */
    method MoreCore(nu: nat, grant: Option<int>) returns (r: int, ghost k: nat)
      requires Valid() && freep != NULL && nu >= 1
      requires grant.Some? ==> grant.value >= brk
      modifies this
      ensures Valid() && freep != NULL && arena.live == old(arena.live)
      ensures forall c :: c in arena.live ==> arena.Size(c) == old(arena.Size(c))
      ensures grant.None? ==> r == NULL && arena == old(arena)
      ensures grant.Some? ==>
        && r == freep && k < |arena.ring| && arena.ring[k] == freep
        && arena.owner.Keys == old(arena.owner.Keys) + Span(grant.value, Asked(nu))
        && (|| (k + 1 < |arena.ring| && arena.Size(arena.ring[k + 1]) >= nu)
            || arena.Size(arena.ring[k]) >= nu)
    {
      r, k := NULL, 0;
      var n := if nu < MIN_UNITS then MIN_UNITS else nu;
      if grant.Some? {
        AddBlock(grant.value, n);
        k := Free(grant.value + 1);
        r := freep;
      }
    }

    /** Write the header of the n fresh units at hp. */
    method AddBlock(hp: int, n: nat)
      requires Valid() && freep != NULL && n >= 1 && hp >= brk
      modifies this
      ensures Valid() && freep == old(freep) && arena.ring == old(arena.ring)
      ensures hp !in old(arena.live) && arena.live == old(arena.live) + {hp} && arena.Size(hp) == n
      ensures arena.owner.Keys == old(arena.owner.Keys) + Span(hp, n)
      ensures forall c :: c in old(arena.live) ==> arena.Size(c) == old(arena.Size(c))
    {
      GrowKeeps(arena, hp, n);
      assert arena.IsBlock(hp) ==> arena.Covers(hp) && hp in arena.owner;
      assert Grow(arena, hp, n).owner.Keys == arena.owner.Keys + Span(hp, n);
      size := size[hp := n];
      arena, brk := Grow(arena, hp, n), hp + n;
    }

    /** Allocate nunits from the block p, which follows prevp in the list. */
    method Take(prevp: int, p: int, nunits: nat, ghost k: nat) returns (r: int)
      requires Valid() && freep != NULL && 0 < nunits <= Size(p)
      requires 0 < k < |arena.ring| && arena.ring[k] == p && arena.ring[k - 1] == prevp
      modifies this
      ensures Valid() && freep == prevp && brk == old(brk)
      ensures r - 1 !in old(arena.live) && arena.live == old(arena.live) + {r - 1}
      ensures r != NULL && arena.Size(r - 1) == nunits
      ensures arena.owner.Keys == old(arena.owner.Keys)
      ensures forall c :: c in old(arena.live) ==> arena.Size(c) == old(arena.Size(c))
    {
      ghost var h := arena;
      assert h.Covers(p);
      AtNode(h, k - 1);
      if Size(p) == nunits {
        next := next[prevp := Next(p)];
        arena := Unlink(h, k);
        UnlinkKeeps(h, k);
        freep, r := prevp, p + 1;
      } else {
        size := size[p := Size(p) - nunits];
        var q := p + Size(p);
        assert h.owner[q] == p;
        assert q in h.live ==> h.Covers(q);
        size := size[q := nunits];
        arena := Split(h, k, nunits);
        SplitKeeps(h, k, nunits);
        freep, r := prevp, q + 1;
      }
    }

    /** The first call of malloc: base alone forms the ring. */
    method Start()
      requires Valid() && freep == NULL
      modifies this
      ensures Valid() && freep == base && brk == old(brk)
      ensures arena.live == old(arena.live) && arena.owner == old(arena.owner) && arena.free == old(arena.free)
    {
      freep := base;
      next, size := next[base := base], size[base := 0];
      arena := Arena(base, next, size, [base], {}, {}, map[]);
      assert arena.LinkAt(0);
    }

    /** malloc.  `grant` is what sbrk answers if it is asked; `calls` counts how often
        it is asked.  The loop ends and asks at most once. */
    method Malloc(nbytes: nat, grant: Option<int>) returns (r: int, calls: nat)
      requires Valid()
      requires nbytes < SIZE_T && UNIT * Asked(NUnits(nbytes)) < SIZE_T / 2
      requires grant.Some? ==> grant.value >= brk
      modifies this
      ensures Valid()
      ensures r == NULL <==> calls == 1 && grant.None?
      // sbrk is asked, once, exactly when no free block is big enough
      ensures calls <= 1
      ensures calls == 1 <==> NoneFits(old(arena), NUnits(nbytes))
      ensures if r == NULL then arena.live == old(arena.live) && SameSizes(old(arena), arena)
              else HandedOut(old(arena), arena, r, NUnits(nbytes))
      ensures arena.owner.Keys == old(arena.owner.Keys) +
        if calls == 1 && grant.Some? then Span(grant.value, Asked(NUnits(nbytes))) else {}
    {
      if freep == NULL {
        Start();
      }
      r, calls := Allocate(NUnits(nbytes), grant);
    }

    /** The loop of malloc. */
    method Allocate(nunits: nat, grant: Option<int>) returns (r: int, calls: nat)
      requires Valid() && freep != NULL && nunits >= 1
      requires grant.Some? ==> grant.value >= brk
      modifies this
      ensures Valid()
      ensures r == NULL <==> calls == 1 && grant.None?
      ensures calls <= 1 && (calls == 1 <==> NoneFits(old(arena), nunits))
      ensures if r == NULL then arena == old(arena) else HandedOut(old(arena), arena, r, nunits)
      ensures arena.owner.Keys == old(arena.owner.Keys) +
        if calls == 1 && grant.Some? then Span(grant.value, Asked(nunits)) else {}
    {
      calls := 0;
      var prevp := freep;
      ghost var a := arena;
      ghost var f: nat :| 0 <= f < |arena.ring| && arena.ring[f] == freep;
      AtNode(arena, f);
      ghost var i: nat, t: nat := Succ(f, |arena.ring|), f;
      var p := Next(prevp);
      while true
        invariant Scanning(a, prevp, p, nunits, grant, calls, f, i, t)
        invariant calls == 0 ==> brk == old(brk)
        decreases 1 - calls, Dist(i, f, |arena.ring|)
      {
        if Size(p) >= nunits {
          r := Found(a, prevp, p, nunits, grant, calls, f, i, t);
          return;
        }
        var q := p;
        if p == freep {
          q, f, t := Refill(a, prevp, p, nunits, grant, calls, f, i, t);
          calls, i := 1, f;
          if q == NULL {
            return NULL, calls;
          }
        }
        i := Advance(a, q, nunits, grant, calls, f, i, t);
        prevp, p := q, Next(q);
      }
    }

    /** The state of malloc's loop: f, i are the ring indices of freep and p.  Before
        morecore every node passed was too small; after it, the block at index t is
        big enough and lies ahead, not beyond freep. */
    ghost predicate Scanning(a: Arena, prevp: int, p: int, nunits: nat, grant: Option<int>,
                             calls: nat, f: nat, i: nat, t: nat)
      reads this
    {
      && Valid() && freep != NULL && calls <= 1
      && f < |arena.ring| && i < |arena.ring| && t < |arena.ring|
      && arena.ring[f] == freep && arena.ring[i] == p
      && (i > 0 ==> arena.ring[i - 1] == prevp)
      && (calls == 0 ==> arena == a && Missed(a, f, i, nunits))
      && (calls == 1 ==> Refilled(a, arena, grant, nunits))
      && (calls == 1 ==> arena.Size(arena.ring[t]) >= nunits && Dist(i, t, |arena.ring|) <= Dist(i, f, |arena.ring|))
    }

    /** The exit of the loop: the block p is big enough. */
    method Found(ghost a: Arena, prevp: int, p: int, nunits: nat, grant: Option<int>, calls: nat,
                 ghost f: nat, ghost i: nat, ghost t: nat) returns (r: int)
      requires Scanning(a, prevp, p, nunits, grant, calls, f, i, t)
      requires 1 <= nunits <= Size(p)
      modifies this
      ensures Valid() && r != NULL
      ensures calls == 1 ==> grant.Some?
      ensures calls == 1 <==> NoneFits(a, nunits)
      ensures HandedOut(a, arena, r, nunits)
      ensures arena.owner.Keys == a.owner.Keys + if calls == 1 then Span(grant.value, Asked(nunits)) else {}
    {
      assert arena.ring[i] in arena.free;
      r := Take(prevp, p, nunits, i);
    }

    /** One turn of the loop increment, from the node q of index i to the next. */
    ghost method Advance(a: Arena, q: int, nunits: nat, grant: Option<int>, calls: nat,
                         f: nat, i: nat, t: nat) returns (i': nat)
      requires Valid() && freep != NULL && calls <= 1
      requires f < |arena.ring| && i < |arena.ring| && t < |arena.ring|
      requires arena.ring[f] == freep && arena.ring[i] == q
      requires calls == 0 ==> arena == a && i != f && Missed(a, f, i, nunits) && arena.Size(q) < nunits
      requires calls == 1 ==> Refilled(a, arena, grant, nunits) && arena.Size(arena.ring[t]) >= nunits
      requires calls == 1 ==> if i == f then t == f || t == Succ(f, |arena.ring|)
                              else arena.Size(q) < nunits && Dist(i, t, |arena.ring|) <= Dist(i, f, |arena.ring|)
      ensures Scanning(a, q, Next(q), nunits, grant, calls, f, i', t)
      ensures i != f ==> Dist(i', f, |arena.ring|) < Dist(i, f, |arena.ring|)
    {
      AtNode(arena, i);
      i' := Succ(i, |arena.ring|);
      if calls == 0 { MissedStep(arena, f, i, nunits); }
    }

    /** morecore as malloc uses it, after a full turn without success: t is the index
        of a big enough block, at freep or right after it. */
    method Refill(ghost a: Arena, prevp: int, p: int, nunits: nat, grant: Option<int>, calls: nat,
                  ghost f: nat, ghost i: nat, ghost t: nat)
      returns (q: int, ghost f': nat, ghost t': nat)
      requires Scanning(a, prevp, p, nunits, grant, calls, f, i, t)
      requires p == freep && Size(p) < nunits
      requires calls == 0 && grant.Some? ==> grant.value >= brk
      modifies this
      ensures calls == 0  // the turn after morecore cannot fail
      ensures Valid() && freep != NULL
      ensures NoneFits(a, nunits)
      ensures grant.None? ==> q == NULL && arena == a
      ensures grant.Some? ==>
        && q == freep && f' < |arena.ring| && arena.ring[f'] == q
        && t' < |arena.ring| && (t' == f' || t' == Succ(f', |arena.ring|))
        && arena.Size(arena.ring[t']) >= nunits
        && Refilled(a, arena, grant, nunits)
    {
      SameNode(arena, i, f);
      FullTurn(arena, f, nunits);
      q, f' := MoreCore(nunits, grant);
      t' := if f' + 1 < |arena.ring| && arena.Size(arena.ring[f' + 1]) >= nunits then f' + 1 else f';
    }

    /** One request of a client that holds `held`. */
    method Serve(op: Op, held: map<int, nat>) returns (held': map<int, nat>)
      requires Valid() && Serves(arena, held) && (op.Ask? ==> Sensible(op.nbytes))
      modifies this
      ensures Valid() && Serves(arena, held')
      ensures Answered(op, held, held')
    {
      match op
      case Ask(nbytes, gap) =>
        PayloadSuffices(nbytes);
        var r, calls := Malloc(nbytes, if gap.Some? then Some(brk + gap.value) else None);
        held' := if r == NULL then held else held[r - 1 := nbytes];
      case Release(b) =>
        if b in held {
          assert arena.Covers(b);
          ghost var k := Free(b + 1);
        }
        held' := held - {b};
    }

    /** Over every sequence of requests, each block a client holds is live, has room for
        what was asked, and overlaps no other. */
    method Run(ops: seq<Op>) returns (held: map<int, nat>, ghost trace: seq<map<int, nat>>)
      requires Valid() && arena.live == {}
      requires forall op :: op in ops && op.Ask? ==> Sensible(op.nbytes)
      modifies this
      ensures Valid() && Serves(arena, held)
      ensures forall b, c :: b in held && c in held && b < c ==> arena.End(b) <= c
      ensures |trace| == |ops| + 1 && trace[0] == map[] && trace[|ops|] == held
      ensures forall i :: 0 <= i < |ops| ==> Answered(ops[i], trace[i], trace[i + 1])
    {
      held, trace := map[], [map[]];
      var i := 0;
      while i < |ops|
        invariant i <= |ops| && Valid() && Serves(arena, held)
        invariant |trace| == i + 1 && trace[0] == map[] && trace[i] == held
        invariant forall j :: 0 <= j < i ==> Answered(ops[j], trace[j], trace[j + 1])
      {
        held := Serve(ops[i], held);
        trace := trace + [held];
        i := i + 1;
      }
      HeldApart(arena, held, freep);
    }
  }

  /** A request: memory of nbytes, where sbrk, if it is asked, gives memory `gap` units
      above the last or fails; or giving back the block of header b, which is one unit
      below the pointer the client has. */
  datatype Op = Ask(nbytes: nat, gap: Option<nat>) | Release(b: int)

  /** What a client holds after a request: an answer to malloc is a new block, and there
      is one whenever sbrk would give memory. */
  ghost predicate Answered(op: Op, held: map<int, nat>, held': map<int, nat>) {
    match op
    case Ask(nbytes, gap) =>
      && (held' == held || exists b :: b !in held && held' == held[b := nbytes])
      && (gap.Some? ==> held' != held)
    case Release(b) => held' == held - {b}
  }

  /** The byte counts malloc and sbrk can represent. */
  predicate Sensible(nbytes: nat) {
    nbytes + UNIT - 1 < SIZE_T && UNIT * Asked(NUnits(nbytes)) < SIZE_T / 2
  }

  /** The live blocks are those the client holds, by their headers, and each has the
      room it asked for. */
  ghost predicate Serves(h: Arena, held: map<int, nat>) {
    held.Keys == h.live && forall b :: b in held ==> Payload(h.Size(b)) >= held[b]
  }

  /** Blocks held do not overlap. */
  lemma HeldApart(h: Arena, held: map<int, nat>, freep: int)
    requires Serves(h, held) && (if freep == NULL then h.live == {} else h.Tiled())
    ensures forall b, c :: b in held && c in held && b < c ==> h.End(b) <= c
  {
    forall b, c | b in held && c in held && b < c ensures h.End(b) <= c {
      BlocksDisjoint(h, b, c);
      assert h.Covers(c);
    }
  }

  /** The live blocks have the sizes they had. */
  ghost predicate SameSizes(a: Arena, h: Arena) {
    forall c :: c in a.live ==> h.Size(c) == a.Size(c)
  }

  /** One more block is live: the one of pointer r, which has n units. */
  ghost predicate HandedOut(a: Arena, h: Arena, r: int, n: nat) {
    r - 1 !in a.live && h.live == a.live + {r - 1} && h.Size(r - 1) == n && SameSizes(a, h)
  }

  /** The new memory is in the arena, and clients see no difference. */
  ghost predicate Refilled(a: Arena, h: Arena, grant: Option<int>, nunits: nat) {
    && grant.Some? && NoneFits(a, nunits)
    && h.live == a.live && (forall c :: c in a.live ==> h.Size(c) == a.Size(c))
    && h.owner.Keys == a.owner.Keys + Span(grant.value, Asked(nunits))
  }

  lemma SameNode(h: Arena, i: nat, f: nat)
    requires h.Ascending() && i < |h.ring| && f < |h.ring| && h.ring[i] == h.ring[f]
    ensures i == f
  {
    assert i < f ==> h.Below(i, f);
    assert f < i ==> h.Below(f, i);
  }

  /** Units morecore asks sbrk for. */
  function Asked(nunits: nat): (n: nat)
    ensures n >= 4096 && n >= nunits && (n == 4096 || n == nunits)
  {
    if nunits < MIN_UNITS then MIN_UNITS else nunits
  }

  /** No free block has nunits units. */
  ghost predicate NoneFits(h: Arena, nunits: nat) {
    forall b :: b in h.free ==> h.Size(b) < nunits
  }

  lemma MissedStep(h: Arena, f: nat, i: nat, nunits: nat)
    requires f < |h.ring| && i < |h.ring| && i != f && Missed(h, f, i, nunits) && h.Size(h.ring[i]) < nunits
    ensures Missed(h, f, Succ(i, |h.ring|), nunits)
  {
    var n := |h.ring|;
    forall x | 0 <= x < n && Dist(Succ(f, n), x, n) < Dist(Succ(f, n), Succ(i, n), n)
      ensures h.Size(h.ring[x]) < nunits
    {
      assert x != i ==> Dist(Succ(f, n), x, n) < Dist(Succ(f, n), i, n);
    }
  }

  lemma FullTurn(h: Arena, f: nat, nunits: nat)
    requires h.Members() && h.Size(h.base) == 0 && f < |h.ring| && Missed(h, f, f, nunits) && h.Size(h.ring[f]) < nunits
    ensures NoneFits(h, nunits)
  {
    forall b | b in h.free ensures h.Size(b) < nunits {
      var x :| 0 <= x < |h.ring| && h.ring[x] == b;
      assert x != f ==> Dist(Succ(f, |h.ring|), x, |h.ring|) < Dist(Succ(f, |h.ring|), f, |h.ring|);
    }
  }

  /** Every node visited on the way from the one after f up to i is too small. */
  ghost predicate Missed(h: Arena, f: nat, i: nat, nunits: nat)
    requires f < |h.ring| && i < |h.ring|
  {
    var n := |h.ring|;
    forall x :: 0 <= x < n && Dist(Succ(f, n), x, n) < Dist(Succ(f, n), i, n) ==> h.Size(h.ring[x]) < nunits
  }
}
