/** What dzfs_write does to the bytes of a file (kernel/src/fs/dzfs.c). */
module DzWrite {
  import opened Prelude
  import opened DzDisk
  import opened DzState

  /** The bytes of a file while dzfs_write, called for `data` at offset `at`, has got
      as far as offset `off`.  Block 0 is written without reading it first when the
      call starts at offset 0, so the rest of that block becomes zero. */
  ghost predicate ByteOk(disk0: Disk, m0: Map, disk: Disk, m: Map, data: seq<bv8>, at: nat, off: nat, i: nat, j: nat)
    requires Shaped(m0) && Shaped(m) && i < SLOTS && j < BLOCK && at <= off <= at + |data|
  {
    var k := i * BLOCK + j;
    if at <= k < off then Slot(m, i) != 0 && ByteAt(disk, m, i, j) == data[k - at]
    else if at == 0 && off > 0 && i == 0 then ByteAt(disk, m, i, j) == 0
    else Slot(m0, i) != 0 ==> ByteAt(disk, m, i, j) == ByteAt(disk0, m0, i, j)
  }

  ghost predicate BytesOk(disk0: Disk, m0: Map, disk: Disk, m: Map, data: seq<bv8>, at: nat, off: nat)
    requires Shaped(m0) && Shaped(m) && at <= off <= at + |data|
  {
    forall i, j {:trigger ByteOk(disk0, m0, disk, m, data, at, off, i, j)} :: 0 <= i < SLOTS && 0 <= j < BLOCK ==>
      ByteOk(disk0, m0, disk, m, data, at, off, i, j)
  }

  /** m keeps every pointer of m0, and new data blocks lie in [at, off). */
  ghost predicate Grown(m0: Map, m: Map, at: nat, off: nat)
    requires Shaped(m0) && Shaped(m)
  {
    && (m0.indirect != 0 ==> m.indirect == m0.indirect)
    && (m.indirect != m0.indirect ==> off > DIRECT * BLOCK)
    && (forall i :: 0 <= i < SLOTS ==> GrownAt(m0, m, at, off, i))
  }

  ghost predicate GrownAt(m0: Map, m: Map, at: nat, off: nat, i: nat)
    requires Shaped(m0) && Shaped(m) && i < SLOTS
  {
    && (Slot(m0, i) != 0 ==> Slot(m, i) == Slot(m0, i))
    && (Slot(m, i) != Slot(m0, i) ==> i * BLOCK < off && at < (i + 1) * BLOCK)
    && (i >= DIRECT && Slot(m, i) != 0 ==> m.indirect != 0)
  }

  /** The part of `bytes` from `raw` on replaced by `chunk`. */
  function Patch(bytes: seq<bv8>, raw: nat, chunk: seq<bv8>): (r: seq<bv8>)
    requires |bytes| == BLOCK && raw + |chunk| <= BLOCK
    ensures |r| == BLOCK
    ensures forall j :: 0 <= j < BLOCK ==> r[j] == if raw <= j < raw + |chunk| then chunk[j - raw] else bytes[j]
  {
    bytes[..raw] + chunk + bytes[raw + |chunk|..]
  }

  /** One turn of the copy loop: block i got the data for [off, off') at offset `raw`. */
  lemma ByteStep(disk0: Disk, m0: Map, disk: Disk, m: Map, data: seq<bv8>, at: nat, off: nat, off': nat,
                 disk': Disk, m': Map, i: nat, raw: nat, base: seq<bv8>, chunk: seq<bv8>, p: nat, j: nat)
    requires Shaped(m0) && Shaped(m) && Shaped(m') && i < SLOTS && p < SLOTS && j < BLOCK
    requires at <= off < off' <= at + |data| && off == i * BLOCK + raw && off' <= (i + 1) * BLOCK
    requires off' == (i + 1) * BLOCK || off' == at + |data|
    requires raw > 0 ==> off == at
    requires ByteOk(disk0, m0, disk, m, data, at, off, p, j)
    requires p != i ==> Slot(m', p) == Slot(m, p) && ByteAt(disk', m', p, j) == ByteAt(disk, m, p, j)
    requires |base| == BLOCK && Slot(m', i) != 0 && IsRaw(disk', Slot(m', i))
    requires chunk == data[off - at..off' - at] && raw + |chunk| <= BLOCK
    requires disk'[Slot(m', i)].bytes == Patch(base, raw, chunk)
    requires off > 0 && Slot(m, i) != 0 ==> base[j] == ByteAt(disk, m, i, j)
    requires off == 0 ==> base[j] == 0
    requires Slot(m0, i) != 0 ==> Slot(m, i) != 0
    ensures ByteOk(disk0, m0, disk', m', data, at, off', p, j)
  {
    if p == i {
      assert ByteAt(disk', m', i, j) == Patch(base, raw, chunk)[j];
      assert raw <= j < raw + |chunk| ==> chunk[j - raw] == data[i * BLOCK + j - at];
    }
  }

  /** The state of the copy loop of dzfs_write: buffers m, started from m0 in v0. */
  ghost predicate Copying(v0: Fs, m0: Map, v: Fs, m: Map, d: nat, data: seq<bv8>, at: nat, off: nat) {
    && v.Inv() && v.IsFile(d) && Only(v0, v, d) && v.disk[d] == v0.disk[d] && MapOf(v.disk, d) == m0
    && Shaped(m0) && v.MapOk(m, d) && at <= off <= at + |data| <= MAX_FILE
    && (off == at || off % BLOCK == 0 || off == at + |data|)
    && Grown(m0, m, at, off)
    && BytesOk(v0.disk, m0, v.disk, m, data, at, off)
    && Blocks(m0) <= Blocks(m) && Blocks(m) - Blocks(m0) <= v0.free && v.free == v0.free - Blocks(m)
  }

  /** Pointers after one turn of the loop. */
  lemma GrownStep(m0: Map, m: Map, m': Map, at: nat, off: nat, off': nat, i: nat)
    requires Shaped(m0) && Shaped(m) && Shaped(m') && i < SLOTS && Grown(m0, m, at, off)
    requires i * BLOCK <= off < off' && off < (i + 1) * BLOCK && at <= off
    requires forall k :: 0 <= k < SLOTS && k != i ==> Slot(m', k) == Slot(m, k)
    requires Slot(m, i) != 0 ==> Slot(m', i) == Slot(m, i)
    requires m'.indirect == m.indirect || (m.indirect == 0 && i >= DIRECT)
    requires i >= DIRECT ==> m'.indirect != 0
    ensures Grown(m0, m', at, off')
  {
    forall k | 0 <= k < SLOTS ensures GrownAt(m0, m', at, off', k) { assert GrownAt(m0, m, at, off, k); }
    assert GrownAt(m0, m, at, off, i);
  }

  /** Data blocks other than i keep their bytes when block i is written. */
  lemma OtherByte(v: Fs, m: Map, v1: Fs, m': Map, d: nat, i: nat, p: nat, j: nat, block: Block)
    requires Shaped(m) && Shaped(m') && i < SLOTS && p < SLOTS && p != i && j < BLOCK
    requires Bitmaps(v.disk, v.nb) && SameButBitmaps(v.disk, v1.disk, v.nb)
    requires Slot(m', p) == Slot(m, p) && v.SlotOk(m, d, p) && v1.SlotOk(m', d, p)
    requires Slot(m', i) != 0 && v1.Holds(Slot(m', i), Data(d, i))
    ensures ByteAt(v1.disk[Slot(m', i) := block], m', p, j) == ByteAt(v.disk, m, p, j)
  {
    var s := Slot(m, p);
    var page: nat := if s >= 2 then s - 2 else 0;
    assert page < v.nb ==> BitmapAt(v.disk, page);
  }

  /** Bytes after one turn of the loop: v1 is the state after allocation, and the
      turn then wrote block Slot(m', i), which is data block i. */
  lemma BytesStep(v0: Fs, m0: Map, v: Fs, m: Map, d: nat, data: seq<bv8>, at: nat, off: nat, off': nat,
                  v1: Fs, m': Map, i: nat, raw: nat, base: seq<bv8>)
    requires Shaped(m0) && v.MapOk(m, d) && Shaped(m') && i < SLOTS
    requires at <= off < off' <= at + |data| && off == i * BLOCK + raw && off' <= (i + 1) * BLOCK
    requires off' == (i + 1) * BLOCK || off' == at + |data|
    requires raw > 0 ==> off == at
    requires Grown(m0, m, at, off) && BytesOk(v0.disk, m0, v.disk, m, data, at, off)
    requires Bitmaps(v.disk, v.nb) && SameButBitmaps(v.disk, v1.disk, v.nb)
    requires forall k :: 0 <= k < SLOTS && k != i ==> Slot(m', k) == Slot(m, k)
    requires forall k :: 0 <= k < SLOTS && k != i ==> v1.SlotOk(m', d, k)
    requires Slot(m, i) != 0 ==> Slot(m', i) == Slot(m, i)
    requires Slot(m', i) != 0 && v1.Holds(Slot(m', i), Data(d, i))
    requires |base| == BLOCK && (off == 0 ==> forall j :: 0 <= j < BLOCK ==> base[j] == 0)
    requires off > 0 && Slot(m, i) != 0 ==> IsRaw(v.disk, Slot(m, i)) && base == v.disk[Slot(m, i)].bytes
    ensures var disk' := v1.disk[Slot(m', i) := Raw(Patch(base, raw, data[off - at..off' - at]))];
      BytesOk(v0.disk, m0, disk', m', data, at, off')
  {
    var chunk := data[off - at..off' - at];
    var block := Raw(Patch(base, raw, chunk));
    var disk' := v1.disk[Slot(m', i) := block];
    assert GrownAt(m0, m, at, off, i);
    forall p, j | 0 <= p < SLOTS && 0 <= j < BLOCK ensures ByteOk(v0.disk, m0, disk', m', data, at, off', p, j) {
      assert ByteOk(v0.disk, m0, v.disk, m, data, at, off, p, j);
      if p != i {
        assert v1.SlotOk(m', d, p) && v.SlotOk(m, d, p);
        OtherByte(v, m, v1, m', d, i, p, j, block);
      }
      ByteStep(v0.disk, m0, v.disk, m, data, at, off, off', disk', m', i, raw, base, chunk, p, j);
    }
  }

  lemma PutSlots(v: Fs, m: Map, d: nat, i: nat, bytes: seq<bv8>)
    requires Shaped(m) && i < SLOTS && Slot(m, i) != 0 && v.Holds(Slot(m, i), Data(d, i)) && |bytes| == BLOCK
    requires forall k :: 0 <= k < SLOTS && k != i ==> v.SlotOk(m, d, k)
    requires m.indirect != 0 ==> v.Holds(m.indirect, Ind(d))
    ensures v.(disk := v.disk[Slot(m, i) := Raw(bytes)]).MapOk(m, d)
  {
    var v' := v.(disk := v.disk[Slot(m, i) := Raw(bytes)]);
    forall k | 0 <= k < SLOTS ensures v'.SlotOk(m, d, k) { assert k != i ==> v.SlotOk(m, d, k); }
  }

  /** The buffers m' have a block at index i: m, with the blocks that needed, taken from
      the bitmap of v, which is v1 then. */
  ghost predicate MapGrown(v: Fs, m: Map, v1: Fs, m': Map, d: nat, i: nat) {
    && v1.Inv() && Only(v, v1, d) && SameButBitmaps(v.disk, v1.disk, v.nb) && i < SLOTS && Shaped(m) && Shaped(m')
    && (forall k :: 0 <= k < SLOTS && k != i ==> Slot(m', k) == Slot(m, k))
    && (forall k :: 0 <= k < SLOTS && k != i ==> v1.SlotOk(m', d, k))
    && Slot(m', i) != 0 && v1.Holds(Slot(m', i), Data(d, i)) && (Slot(m, i) != 0 ==> Slot(m', i) == Slot(m, i))
    && (m'.indirect == m.indirect || (m.indirect == 0 && i >= DIRECT))
    && (i >= DIRECT ==> m'.indirect != 0)
    && (m'.indirect != 0 ==> v1.Holds(m'.indirect, Ind(d)))
    && Blocks(m) <= Blocks(m') && Blocks(m') - Blocks(m) <= v.free && v1.free == v.free - Blocks(m')
  }

  /** First the indirect block, then the data block. */
  lemma GrownTwice(v: Fs, m: Map, v1: Fs, m1: Map, v2: Fs, m2: Map, d: nat, i: nat, b: nat)
    requires i < SLOTS && Shaped(m) && Shaped(m1) && v2.Inv() && Only(v, v2, d) && b != 0
    requires SameButBitmaps(v.disk, v1.disk, v.nb) && SameButBitmaps(v1.disk, v2.disk, v.nb) && v1.nb == v.nb
    requires m1.direct == m.direct && m1.ptrs == m.ptrs
    requires (m1.indirect == m.indirect || (m.indirect == 0 && i >= DIRECT)) && (i >= DIRECT ==> m1.indirect != 0)
    requires m2 == SetSlot(m1, i, b) && v2.Holds(b, Data(d, i)) && (Slot(m1, i) != 0 ==> m2 == m1)
    requires forall k :: 0 <= k < SLOTS && k != i ==> v2.SlotOk(m2, d, k)
    requires m2.indirect != 0 ==> v2.Holds(m2.indirect, Ind(d))
    requires Blocks(m) <= Blocks(m1) && Blocks(m1) - Blocks(m) <= v.free && v1.free == v.free - Blocks(m1)
    requires Blocks(m1) <= Blocks(m2) && Blocks(m2) - Blocks(m1) <= v1.free && v2.free == v1.free - Blocks(m2)
    ensures MapGrown(v, m, v2, m2, d, i) && Slot(m2, i) == b
  {
    TakenTwice(Blocks(m), Blocks(m1), Blocks(m2), v.free, v1.free, v2.free);
    assert forall k :: 0 <= k < SLOTS ==> Slot(m1, k) == Slot(m, k);
  }

  /** Taking blocks from the bitmap changes nothing of a file. */
  lemma SameMap(v: Fs, v1: Fs, d: nat)
    requires v.Inv() && v.IsFile(d) && SameButBitmaps(v.disk, v1.disk, v.nb)
    ensures d in v1.disk && v1.disk[d] == v.disk[d] && MapOf(v1.disk, d) == MapOf(v.disk, d)
  {
    assert v.DnodeOk(d);
    if v.disk[d].indirect != 0 { assert v.Holds(v.disk[d].indirect, Ind(d)); }
  }

  /** Writing a data block does not touch the pointers. */
  lemma OtherBlock(v: Fs, d: nat, i: nat, b: nat, bytes: seq<bv8>)
    requires v.Inv() && v.IsFile(d) && v.Holds(b, Data(d, i))
    ensures d in v.disk[b := Raw(bytes)] && MapOf(v.disk[b := Raw(bytes)], d) == MapOf(v.disk, d)
  {
    assert v.DnodeOk(d) && v.Holds(d, Dnode);
    if v.disk[d].indirect != 0 { assert v.Holds(v.disk[d].indirect, Ind(d)); }
  }

  /** The block of index i is written: the file system is still in order. */
  lemma CopyState(v0: Fs, v: Fs, m: Map, v1: Fs, m': Map, d: nat, i: nat, bytes: seq<bv8>, v2: Fs)
    requires v0.Inv() && v.Inv() && v.IsFile(d) && Only(v0, v, d) && v.disk[d] == v0.disk[d]
    requires MapGrown(v, m, v1, m', d, i)
    requires |bytes| == BLOCK && v2 == v1.(disk := v1.disk[Slot(m', i) := Raw(bytes)])
    ensures v2.Inv() && v2.IsFile(d) && Only(v0, v2, d) && v2.disk[d] == v0.disk[d] && v2.MapOk(m', d)
    ensures MapOf(v2.disk, d) == MapOf(v.disk, d)
  {
    SameMap(v, v1, d);
    OtherBlock(v1, d, i, Slot(m', i), bytes);
    assert v.own[d] == Dnode;
    assert v1.Holds(d, v.own[d]);
    PutKeeps(v1, Slot(m', i), d, i, bytes);
    PutSlots(v1, m', d, i, bytes);
    OnlyTransitive(v0, v, v1, d);
    OnlyTransitive(v0, v1, v2, d);
  }

  /** A turn of the loop gets from off, which is `raw` bytes into block i, to off': the end
      of the block or of the data. */
  predicate Turn(i: nat, raw: nat, off: nat, off': nat, end: nat) {
    && off == i * BLOCK + raw && raw < BLOCK && off < off' <= end
    && off' <= (i + 1) * BLOCK && (off' == (i + 1) * BLOCK || off' == end)
  }

  /** One turn of the loop, from the state v before it, through v1 after the
      allocation, to the state after the block is written. */
  lemma CopyStep(v0: Fs, m0: Map, v: Fs, m: Map, d: nat, data: seq<bv8>, at: nat, off: nat, off': nat,
                 v1: Fs, m': Map, i: nat, raw: nat, base: seq<bv8>, chunk: seq<bv8>, v2: Fs)
    requires v0.Inv() && v0.IsFile(d) && Copying(v0, m0, v, m, d, data, at, off) && off < at + |data|
    requires Turn(i, raw, off, off', at + |data|) && MapGrown(v, m, v1, m', d, i)
    requires raw + |chunk| <= BLOCK && chunk == data[off - at..off' - at]
    requires |base| == BLOCK && (off == 0 ==> forall j :: 0 <= j < BLOCK ==> base[j] == 0)
    requires off > 0 && IsRaw(v1.disk, Slot(m', i)) ==> base == v1.disk[Slot(m', i)].bytes
    requires v2 == v1.(disk := v1.disk[Slot(m', i) := Raw(Patch(base, raw, chunk))])
    ensures Copying(v0, m0, v2, m', d, data, at, off')
  {
    InBlock(i, raw);
    assert off % BLOCK == raw && (off' == (i + 1) * BLOCK ==> off' % BLOCK == 0);
    SameBase(v, m, v1, m', d, i);
    GrownStep(m0, m, m', at, off, off', i);
    BytesStep(v0, m0, v, m, d, data, at, off, off', v1, m', i, raw, base);
    CopyState(v0, v, m, v1, m', d, i, Patch(base, raw, chunk), v2);
    TakenTwice(Blocks(m0), Blocks(m), Blocks(m'), v0.free, v.free, v1.free);
  }

  /** A block that was there has not changed by the allocation. */
  lemma SameBase(v: Fs, m: Map, v1: Fs, m': Map, d: nat, i: nat)
    requires v.Inv() && v.MapOk(m, d) && MapGrown(v, m, v1, m', d, i)
    ensures Slot(m, i) != 0 ==> IsRaw(v.disk, Slot(m, i)) && IsRaw(v1.disk, Slot(m, i))
    ensures Slot(m, i) != 0 ==> v1.disk[Slot(m, i)] == v.disk[Slot(m, i)]
  {
    var b := Slot(m, i);
    assert v.SlotOk(m, d, i);
    var page: nat := if b >= 2 then b - 2 else 0;
    assert page < v.nb ==> BitmapAt(v.disk, page);
  }

  lemma InBlock(i: nat, raw: nat)
    requires raw < BLOCK
    ensures (i * BLOCK + raw) % BLOCK == raw && (i + 1) * BLOCK % BLOCK == 0
  {
    var x, y := i * BLOCK + raw, (i + 1) * BLOCK;
    assert x == 4096 * i + raw && y == 4096 * (i + 1);
    assert x % 4096 == raw && y % 4096 == 0;
  }

  /** Blocks that left the bitmap in two steps. */
  lemma TakenTwice(a: set<nat>, b: set<nat>, c: set<nat>, free0: set<nat>, free1: set<nat>, free2: set<nat>)
    requires a <= b && b - a <= free0 && free1 == free0 - b && b <= c && c - b <= free1 && free2 == free1 - c
    ensures a <= c && c - a <= free0 && free2 == free0 - c
  {
    forall x | x in c - a ensures x in free0 {
      assert if x in b then x in b - a else x in c - b && x in free1;
    }
    forall x ensures x in free2 <==> x in free0 - c {
      assert x in b ==> x in c;
    }
  }

  const UINT32: nat := 0x1_0000_0000

  /** The last writes of dzfs_write: the indirect block, then the dnode. */
  function Commit(disk: Disk, m: Map, d: nat, n: nat): (disk': Disk)
    requires d in disk && disk[d].File?
  {
    var f := File(disk[d].name, (disk[d].size + n) % UINT32, m.indirect, m.direct);
    (if m.indirect != 0 then disk[m.indirect := Indirect(m.ptrs)] else disk)[d := f]
  }

  lemma CommitMap(v: Fs, m: Map, d: nat, n: nat)
    requires v.Inv() && v.IsFile(d) && v.MapOk(m, d)
    requires forall i :: DIRECT <= i < SLOTS && Slot(m, i) != 0 ==> m.indirect != 0
    ensures var disk' := Commit(v.disk, m, d, n);
      && MapOf(disk', d) == m && v.(disk := disk').FileOk(d)
      && (forall i, j :: 0 <= i < SLOTS && 0 <= j < BLOCK ==> ByteAt(disk', m, i, j) == ByteAt(v.disk, m, i, j))
  {
    var v' := v.(disk := Commit(v.disk, m, d, n));
    if m.indirect == 0 {
      forall k | 0 <= k < INDIRECT ensures m.ptrs[k] == 0 { assert Slot(m, DIRECT + k) == m.ptrs[k]; }
      assert m.ptrs == NoPtrs();
    }
    assert v.DnodeOk(d);
    assert v.Holds(0, Meta);
    forall i | 0 <= i < SLOTS
      ensures v'.SlotOk(m, d, i) && Slot(m, i) != d && (m.indirect != 0 ==> Slot(m, i) != m.indirect)
    {
      assert v.SlotOk(m, d, i);
    }
  }

  lemma CommitKeeps(v: Fs, m: Map, d: nat, n: nat)
    requires v.Inv() && v.IsFile(d) && v.MapOk(m, d)
    requires forall i :: DIRECT <= i < SLOTS && Slot(m, i) != 0 ==> m.indirect != 0
    ensures var v' := v.(disk := Commit(v.disk, m, d, n)); v'.Inv() && Only(v, v', d)
  {
    var v' := v.(disk := Commit(v.disk, m, d, n));
    assert v.DnodeOk(d) && v.IsFolder(v.Root());
    CommitMap(v, m, d, n);
    assert SameBitmaps(v.disk, v'.disk, v.nb) by {
      forall p | 2 <= p < 2 + v.nb ensures p in v.disk && v'.disk[p] == v.disk[p] {
        assert BitmapAt(v.disk, p - 2) && v.Holds(p, Meta);
      }
    }
    SameBitmapsSynced(v.disk, v'.disk, v.nb, v.free);
    LayoutKeeps(v, v');
    forall e | v'.IsDnode(e) ensures v'.DnodeOk(e) {
      assert v.DnodeOk(e);
      if e != d { OnlyKeeps(v, v', d, e); }
    }
  }

  /** The effect of a successful dzfs_write. */
  ghost predicate Wrote(v0: Fs, v: Fs, d: nat, data: seq<bv8>, at: nat) {
    && v0.IsFile(d) && v.IsFile(d) && Only(v0, v, d)
    && v.disk[d].size == (v0.disk[d].size + |data|) % UINT32
    && var m0, m := MapOf(v0.disk, d), MapOf(v.disk, d);
    && Shaped(m0) && Shaped(m) && Grown(m0, m, at, at + |data|)
    && BytesOk(v0.disk, m0, v.disk, m, data, at, at + |data|)
    && Blocks(m0) <= Blocks(m) && Blocks(m) - Blocks(m0) <= v0.free && v.free == v0.free - Blocks(m)
  }

  lemma WroteAll(v0: Fs, v: Fs, m: Map, d: nat, data: seq<bv8>, at: nat, v': Fs)
    requires v0.Inv() && v0.IsFile(d)
    requires Copying(v0, MapOf(v0.disk, d), v, m, d, data, at, at + |data|)
    requires v' == v.(disk := Commit(v.disk, m, d, |data|))
    ensures v'.Inv() && Wrote(v0, v', d, data, at)
  {
    var m0, off := MapOf(v0.disk, d), at + |data|;
    forall i | DIRECT <= i < SLOTS && Slot(m, i) != 0 ensures m.indirect != 0 { assert GrownAt(m0, m, at, off, i); }
    CommitMap(v, m, d, |data|);
    CommitKeeps(v, m, d, |data|);
    OnlyTransitive(v0, v, v', d);
    forall i, j | 0 <= i < SLOTS && 0 <= j < BLOCK ensures ByteOk(v0.disk, m0, v'.disk, m, data, at, off, i, j) {
      assert ByteOk(v0.disk, m0, v.disk, m, data, at, off, i, j);
    }
  }

  // ------------------------------------------------- when the disk is full

  /** Blocks dzfs_write has to allocate to have data block i. */
  function Cost(m: Map, i: nat): (n: nat)
    requires Shaped(m) && i < SLOTS
  {
    (if i >= DIRECT && m.indirect == 0 then 1 else 0) + (if Slot(m, i) == 0 then 1 else 0)
  }

  /** Data blocks that are missing in [lo, hi). */
  function Gaps(m: Map, lo: nat, hi: nat): (n: nat)
    requires Shaped(m) && hi <= SLOTS
    decreases hi - lo
  {
    if lo >= hi then 0 else (if Slot(m, lo) == 0 then 1 else 0) + Gaps(m, lo + 1, hi)
  }

  /** Blocks that are missing for a write to [off, end): data blocks, and the indirect
      block if one of them needs it. */
  function Need(m: Map, off: nat, end: nat): (n: nat)
    requires Shaped(m) && end <= MAX_FILE
  {
    if off >= end then 0 else
    var hi := (end - 1) / BLOCK + 1;
    Gaps(m, off / BLOCK, hi) + if hi > DIRECT && m.indirect == 0 then 1 else 0
  }

  /** Blocks that are missing for n bytes at offset `at` of file d. */
  function Wanted(disk: Disk, d: nat, at: nat, n: nat): (k: nat)
    requires d in disk && disk[d].File? && Shaped(MapOf(disk, d)) && at + n <= MAX_FILE
  {
    Need(MapOf(disk, d), at, at + n)
  }

  lemma SameGaps(m: Map, m': Map, lo: nat, hi: nat)
    requires Shaped(m) && Shaped(m') && hi <= SLOTS && forall k :: lo <= k < hi ==> Slot(m', k) == Slot(m, k)
    ensures Gaps(m', lo, hi) == Gaps(m, lo, hi)
    decreases hi - lo
  {
    if lo < hi { SameGaps(m, m', lo + 1, hi); }
  }

  /** What is missing before a turn of the loop is what the turn allocates and what is
      missing after it. */
  lemma NeedStep(m: Map, m': Map, off: nat, off': nat, end: nat, i: nat)
    requires Shaped(m) && Shaped(m') && i < SLOTS && i * BLOCK <= off < off' <= end <= MAX_FILE && off < (i + 1) * BLOCK
    requires off' == end || off' == (i + 1) * BLOCK
    requires off' <= (i + 1) * BLOCK
    requires (forall k :: 0 <= k < SLOTS && k != i ==> Slot(m', k) == Slot(m, k)) && Slot(m', i) != 0
    requires (m'.indirect == m.indirect || (m.indirect == 0 && i >= DIRECT)) && (i >= DIRECT ==> m'.indirect != 0)
    ensures Need(m, off, end) == Cost(m, i) + Need(m', off', end)
  {
    var hi := (end - 1) / BLOCK + 1;
    InBlock(i, off - i * BLOCK);
    assert off / BLOCK == i && hi > i && hi <= SLOTS;
    if off' == end {
      assert hi == i + 1 && Gaps(m, i + 1, hi) == 0;
    } else {
      assert off' / BLOCK == i + 1;
      SameGaps(m, m', i + 1, hi);
    }
  }

  lemma NeedTurn(v: Fs, m: Map, v1: Fs, m': Map, d: nat, i: nat, raw: nat, off: nat, off': nat, end: nat)
    requires MapGrown(v, m, v1, m', d, i) && Turn(i, raw, off, off', end) && end <= MAX_FILE
    ensures Need(m, off, end) == Cost(m, i) + Need(m', off', end)
  {
    NeedStep(m, m', off, off', end, i);
  }

  lemma CostNeeded(m: Map, off: nat, end: nat)
    requires Shaped(m) && off < end <= MAX_FILE
    ensures off / BLOCK < SLOTS && Cost(m, off / BLOCK) <= Need(m, off, end)
  {
  }

  /** A write that got only as far as `off`: the pointers of the file are as before, and
      so are its bytes, except those the turns of the loop before wrote in place. */
  ghost predicate Partial(v0: Fs, v: Fs, d: nat, data: seq<bv8>, at: nat, off: nat) {
    && v0.IsFile(d) && v.IsFile(d) && Only(v0, v, d) && v.disk[d] == v0.disk[d] && MapOf(v.disk, d) == MapOf(v0.disk, d)
    && Shaped(MapOf(v0.disk, d)) && at <= off <= at + |data| <= MAX_FILE
    && var m := MapOf(v0.disk, d);
    forall i, j {:trigger ByteOk(v0.disk, m, v.disk, m, data, at, off, i, j)} ::
      0 <= i < SLOTS && 0 <= j < BLOCK && Slot(m, i) != 0 ==> ByteOk(v0.disk, m, v.disk, m, data, at, off, i, j)
  }

  /** The state of the loop when an allocation fails. */
  lemma Stopped(v0: Fs, m0: Map, v: Fs, m: Map, d: nat, data: seq<bv8>, at: nat, off: nat, v1: Fs)
    requires v0.Inv() && v0.IsFile(d) && m0 == MapOf(v0.disk, d) && Copying(v0, m0, v, m, d, data, at, off)
    requires v1.Inv() && Only(v, v1, d) && SameButBitmaps(v.disk, v1.disk, v.nb)
    ensures Partial(v0, v1, d, data, at, off)
  {
    assert v.own[d] == Dnode && v1.Holds(d, v.own[d]);
    SameMap(v, v1, d);
    OnlyTransitive(v0, v, v1, d);
    forall i, j | 0 <= i < SLOTS && 0 <= j < BLOCK && Slot(m0, i) != 0
      ensures ByteOk(v0.disk, m0, v1.disk, m0, data, at, off, i, j)
    {
      assert ByteOk(v0.disk, m0, v.disk, m, data, at, off, i, j) && GrownAt(m0, m, at, off, i) && v.SlotOk(m, d, i);
      assert v.Holds(Slot(m, i), Data(d, i));
    }
  }

  /** Every block that was free when a write failed for lack of space is lost: it is not
      free any more and no file has a pointer to it. */
  lemma BlocksLost(v0: Fs, v: Fs, d: nat, data: seq<bv8>, at: nat, off: nat, b: nat, e: nat)
    requires v0.Inv() && v.Inv() && Partial(v0, v, d, data, at, off) && v.free == {} && b in v0.free && v0.IsFile(e)
    ensures b !in v.free && v.IsFile(e) && Shaped(MapOf(v.disk, e)) && b !in Blocks(MapOf(v.disk, e))
  {
    assert v0.DnodeOk(e) && v0.own[e] == Dnode && v.Holds(e, v0.own[e]);
    BlocksOwned(v0, MapOf(v0.disk, e), e);
    if e != d { OnlyKeepsFile(v0, v, d, e); }
  }
}
