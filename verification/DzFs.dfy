/** The file system calls of dzFS (kernel/src/fs/dzfs.c). */
module DzFs {
  import opened Prelude
  import opened DzBits
  import opened DzDisk
  import opened DzState
  import opened DzWrite
  import opened DzContent
  import opened DzFolder
  import opened DzFormat
  import opened DzPath

  datatype Status = Ok | ErrArgument | ErrInvalidFs | ErrLimit | ErrNotFound | ErrFull | ErrNotEmpty | ErrTooSmall

  class FileSystem {
    var disk: Disk
    var nb: nat        // free_bitmap_blocks
    var root: nat      // root_dnode
    var total: nat     // superblock.blocks
    ghost var free: set<nat>
    ghost var own: map<nat, Role>
    ghost var par: map<nat, nat>

    ghost function S(): Fs
      reads this
    {
      Fs(disk, nb, total, free, own, par)
    }

    ghost predicate Valid()
      reads this
    {
      S().Inv() && root == S().Root()
    }

    /** bitmap_set and bitmap_clear on the bitmap block that covers b. */
    method WriteBit(b: nat, mark: bool)
      requires Bitmaps(disk, nb) && Synced(disk, nb, free) && b < nb * COVERED
      modifies this`disk, this`free
      ensures free == if mark then old(free) + {b} else old(free) - {b}
      ensures Bitmaps(disk, nb) && Synced(disk, nb, free) && SameButBitmaps(old(disk), disk, nb)
    {
      var p := b / 8 / BLOCK;
      assert p == b / COVERED && BitmapAt(disk, p);
      var index := b % COVERED;
      var bits := disk[2 + p].bits;
      var byte := if mark then SetBit(bits[index / 8], index % 8) else ClearBit(bits[index / 8], index % 8);
      assert index % 8 == b % 8;
      ghost var free' := if mark then free + {b} else free - {b};
      OneBit(disk, nb, free, b, byte, free');
      disk := disk[2 + p := Bitmap(bits[index / 8 := byte])];
      free := free';
    }

    /** The search loops of block_alloc: the least free block, or 0 if there is none. */
    method FindFree() returns (r: nat)
      requires Bitmaps(disk, nb) && Synced(disk, nb, free) && 0 !in free
      ensures r == 0 <==> free == {}
      ensures r != 0 ==> r in free && forall b :: b in free ==> r <= b
    {
      r := 0;
      var page := 0;
      while page < nb && r == 0
        invariant page <= nb
        invariant r == 0 ==> forall b :: b in free ==> b >= page * COVERED
        invariant r != 0 ==> r in free && forall b :: b in free ==> r <= b
      {
        assert BitmapAt(disk, page);
        var bits := disk[2 + page].bits;
        var i := 0;
        while i < BLOCK && bits[i] == 0
          invariant i <= BLOCK
          invariant forall b :: b in free ==> b >= page * COVERED + i * 8
        {
          NothingInByte(disk, nb, free, page, i);
          i := i + 1;
        }
        if i < BLOCK {
          r := page * COVERED + i * 8 + Ctz(bits[i]);
          LeastInByte(disk, nb, free, page, i);
        }
        page := page + 1;
      }
      if r == 0 {
        forall b ensures b !in free { assert b in free ==> IsFree(disk, nb, b); }
        assert free == {};
      }
    }

    method BlockAlloc() returns (r: nat)
      requires Bitmaps(disk, nb) && Synced(disk, nb, free) && 0 !in free
      modifies this`disk, this`free
      ensures r == 0 <==> old(free) == {}
      ensures r != 0 ==> r in old(free) && forall b :: b in old(free) ==> r <= b
      ensures free == old(free) - {r} && (r == 0 ==> disk == old(disk))
      ensures Bitmaps(disk, nb) && Synced(disk, nb, free) && SameButBitmaps(old(disk), disk, nb)
    {
      r := FindFree();
      if r != 0 {
        assert IsFree(disk, nb, r);
        WriteBit(r, false);
      }
    }

    method BlockFree(b: nat)
      requires Bitmaps(disk, nb) && Synced(disk, nb, free) && b < nb * COVERED
      modifies this`disk, this`free
      ensures free == old(free) + {b}
      ensures Bitmaps(disk, nb) && Synced(disk, nb, free) && SameButBitmaps(old(disk), disk, nb)
    {
      WriteBit(b, true);
    }

    /** dzfs_free_blocks: the size of the free set. */
    method FreeBlocks() returns (count: nat)
      requires Bitmaps(disk, nb) && Synced(disk, nb, free)
      ensures count == |free|
    {
      count := 0;
      assert Below(free, 0) == {};
      for page := 0 to nb
        invariant count == |Below(free, page * COVERED)|
      {
        assert BitmapAt(disk, page);
        var bits := disk[2 + page].bits;
        for i := 0 to |bits|
          invariant count == |Below(free, Number(page, i, 0))|
        {
          CountByte(disk, nb, free, page, i);
          var c := Popcount(bits[i]);
          count := count + c;
        }
      }
      forall b | b in free ensures b in Below(free, nb * COVERED) { assert IsFree(disk, nb, b); }
      assert Below(free, nb * COVERED) == free;
    }

    /** dzfs_new on a device of `blocks` blocks.  On success every block from the root
        folder on is marked free, up to the end of the disk if the size allows the
        last bitmap block to be right, and then the file system is valid. */
    method New(blocks: nat) returns (st: Status)
      requires forall b :: 0 <= b < blocks ==> b in disk
      requires blocks < 0x10_0000  // the largest disk dzFS supports is 2^32 - 1 bytes
      modifies this
      ensures st == if blocks <= 4 then ErrTooSmall else Ok
      ensures st == Ok ==>
        && nb == Pages(blocks) && root == 2 + nb && total == blocks
        && Bitmaps(disk, nb) && Synced(disk, nb, free) && free == Range(nb + 3, Limit(blocks))
        && 1 in disk && disk[1] == Super("dzFS", 1, blocks) && root in disk
        && disk[root] == Folder("/", root, seq(MAX_DIR, _ => 0))
      ensures st == Ok ==> Rooted(S()) && (Valid() <==> blocks <= COVERED || blocks % COVERED == 0)
    {
      if blocks <= 4 {
        return ErrTooSmall;
      }
      total, nb := blocks, (blocks + COVERED - 1) / COVERED;
      root := 2 + nb;
      SecondTest(blocks);
      disk := disk[1 := Super("dzFS", 1, blocks)];
      WriteBitmaps(blocks);
      ghost var mid := disk;
      disk := disk[root := Folder("/", root, seq(MAX_DIR, _ => 0))];
      RootBeside(mid, disk, root, disk[root], blocks);
      FirstState(blocks);
      st := Ok;
    }

    /** What is free and who owns what after formatting. */
    ghost method FirstState(blocks: nat)
      requires 4 < blocks < 0x10_0000 && nb == Pages(blocks) && root == 2 + nb && total == blocks && nb + 3 <= COVERED
      requires Bitmaps(disk, nb) && forall p :: 0 <= p < nb ==> PageOk(disk, blocks, p)
      requires forall b :: 0 <= b < blocks ==> b in disk
      requires root in disk && disk[root] == Folder("/", root, seq(MAX_DIR, _ => 0))
      modifies this`free, this`own, this`par
      ensures Synced(disk, nb, free) && free == Range(nb + 3, Limit(blocks))
      ensures Rooted(S()) && (Valid() <==> blocks <= COVERED || blocks % COVERED == 0)
    {
      FormatSynced(disk, blocks);
      free := Range(nb + 3, Limit(blocks));
      own := FirstRoles(nb);
      par := map[];
      LimitExact(blocks);
      FormatInv(S());
      FormatRooted(S());
    }

    /** The bitmap blocks of a new file system, in the order dzfs_new writes them. */
    method WriteBitmaps(blocks: nat)
      requires 4 < blocks && nb == Pages(blocks)
      modifies this`disk
      ensures forall p :: 0 <= p < nb ==> PageOk(disk, blocks, p)
      ensures disk.Keys >= old(disk.Keys) && forall b :: b in old(disk) && !(2 <= b < 2 + nb) ==>
        disk[b] == old(disk)[b]
    {
      var ones := AllOnes();
      var last := if nb > 1 then nb - 1 else 1;
      var i := 1;
      while i < last
        invariant 1 <= i <= last
        invariant forall p :: 1 <= p < i ==> PageOk(disk, blocks, p)
        invariant disk.Keys >= old(disk.Keys) && forall b :: b in old(disk) && !(2 <= b < 2 + nb) ==>
          disk[b] == old(disk)[b]
      {
        ghost var was := disk;
        disk := disk[2 + i := Bitmap(ones)];
        assert PageBits(ones, blocks, i);
        forall p | 1 <= p <= i ensures PageOk(disk, blocks, p) { assert p < i ==> PageOk(was, blocks, p); }
        i := i + 1;
      }
      ghost var middle := disk;
      var bits := ClearFirst(ones, nb + 3);
      disk := disk[2 := Bitmap(bits)];
      if nb != 1 {
        assert PageBits(bits, blocks, 0);
        bits := ones;
      }
      bits := ClearTail(bits, COVERED * nb, blocks);
      assert PageBits(bits, blocks, nb - 1);
      disk := disk[2 + nb - 1 := Bitmap(bits)];
      forall p | 0 <= p < nb ensures PageOk(disk, blocks, p) {
        assert 1 <= p < nb - 1 ==> PageOk(middle, blocks, p);
      }
    }

    /** dzfs_init: what dzfs_new wrote is what dzfs_init finds. */
    method Init() returns (st: Status)
      requires 1 in disk && disk[1].Super?
      modifies this`total, this`nb, this`root
      ensures st == if disk[1].magic == "dzFS" then Ok else ErrInvalidFs
      ensures st == Ok ==> total == disk[1].blocks && nb == Pages(total) && root == 2 + nb
      ensures st != Ok ==> total == old(total) && nb == old(nb) && root == old(root)
    {
      if disk[1].magic != "dzFS" {
        return ErrInvalidFs;
      }
      total := disk[1].blocks;
      nb := (total + COVERED - 1) / COVERED;
      root := 1 + 1 + nb;
      st := Ok;
    }

    /** block_alloc on behalf of file d. */
    method Take(ghost d: nat, ghost role: Role) returns (r: nat)
      requires Valid() && S().IsFile(d) && (role == Ind(d) || (role.Data? && role.d == d))
      modifies this`disk, this`free, this`own
      ensures Valid() && Only(old(S()), S(), d) && SameButBitmaps(old(disk), disk, nb)
      ensures r == 0 <==> old(free) == {}
      ensures r != 0 ==> r in old(free) && r > S().Root() && Roomier(old(S()), S()) && S().Holds(r, role)
      ensures free == old(free) - {r} && Card(free) == Card(old(free)) - (if r == 0 then 0 else 1)
      ensures r == 0 ==> S() == old(S())
    {
      ghost var v := S();
      assert v.DnodeOk(d);
      r := BlockAlloc();
      if r != 0 {
        CardLess(v.free, r);
        own := own[r := role];
        TakeKeeps(v, S(), r, d, role);
      } else {
        SameSnapshot(v, S(), d);
      }
    }

    /** dzfs_write makes sure there is an indirect block when block i needs it. */
    method NeedIndirect(ghost d: nat, m: Map, i: nat) returns (ok: bool, m': Map)
      requires Valid() && S().IsFile(d) && S().MapOk(m, d) && i < SLOTS
      modifies this`disk, this`free, this`own
      ensures Valid() && Only(old(S()), S(), d) && SameButBitmaps(old(disk), disk, nb)
      ensures !ok ==> free == {} && old(free) == {} && i >= DIRECT && m.indirect == 0
      ensures ok ==>
        && S().MapOk(m', d) && m'.direct == m.direct && m'.ptrs == m.ptrs
        && (m'.indirect == m.indirect || (m.indirect == 0 && i >= DIRECT)) && (i >= DIRECT ==> m'.indirect != 0)
        && Blocks(m) <= Blocks(m') && Blocks(m') - Blocks(m) <= old(free)
        && free == old(free) - Blocks(m')
        && Card(free) == Card(old(free)) - (if i >= DIRECT && m.indirect == 0 then 1 else 0)
    {
      ok, m' := true, m;
      BlocksOwned(S(), m, d);
      if i >= DIRECT && m.indirect == 0 {
        var r := Take(d, Ind(d));
        ok := r != 0;
        if ok {
          m' := m.(indirect := r);
          RoomierMap(old(S()), S(), m, d);
          SameSlots(S(), m, m', d);
          SetIndirectBlocks(m, r);
        }
      } else {
        SameSnapshot(old(S()), S(), d);
      }
    }

    /** get_or_allocate_block on the pointer for data block i. */
    method GetOrAllocate(ghost d: nat, m: Map, i: nat) returns (b: nat, m': Map)
      requires Valid() && S().IsFile(d) && S().MapOk(m, d) && i < SLOTS
      modifies this`disk, this`free, this`own
      ensures Valid() && Only(old(S()), S(), d) && SameButBitmaps(old(disk), disk, nb)
      ensures b == 0 ==> free == {} && old(free) == {} && Slot(m, i) == 0
      ensures b != 0 ==>
        && m' == SetSlot(m, i, b) && S().Holds(b, Data(d, i)) && (Slot(m, i) != 0 ==> m' == m)
        && (forall k :: 0 <= k < SLOTS && k != i ==> S().SlotOk(m', d, k))
        && (m'.indirect != 0 ==> S().Holds(m'.indirect, Ind(d)))
        && Blocks(m) <= Blocks(m') && Blocks(m') - Blocks(m) <= old(free)
        && free == old(free) - Blocks(m')
        && Card(free) == Card(old(free)) - (if Slot(m, i) == 0 then 1 else 0)
    {
      b, m' := Slot(m, i), m;
      BlocksOwned(S(), m, d);
      if b == 0 {
        b := Take(d, Data(d, i));
        if b != 0 {
          RoomierMap(old(S()), S(), m, d);
          SetSlotBlocks(m, i, b);
          m' := SetSlot(m, i, b);
          forall k | 0 <= k < SLOTS && k != i ensures S().SlotOk(m', d, k) { assert S().SlotOk(m, d, k); }
        }
      } else {
        SameSnapshot(old(S()), S(), d);
        assert S().SlotOk(m, d, i);
        assert m == SetSlot(m, i, b);
        forall k | 0 <= k < SLOTS ensures S().SlotOk(m', d, k) { assert S().SlotOk(m, d, k); }
      }
    }

    /** The block for data block i of file d, allocated where the buffers m have none:
        the first part of the loop of dzfs_write. */
    method GrowMap(ghost d: nat, m: Map, i: nat) returns (b: nat, m': Map)
      requires Valid() && S().IsFile(d) && S().MapOk(m, d) && i < SLOTS
      modifies this`disk, this`free, this`own
      ensures Valid() && Only(old(S()), S(), d) && SameButBitmaps(old(disk), disk, nb)
      ensures b == 0 ==> free == {} && Card(old(free)) < Cost(m, i)
      ensures b != 0 ==>
        MapGrown(old(S()), m, S(), m', d, i) && Slot(m', i) == b && Card(free) == Card(old(free)) - Cost(m, i)
    {
      var ok, m1 := NeedIndirect(d, m, i);
      b, m' := 0, m1;
      if ok {
        ghost var v := S();
        assert forall k :: 0 <= k < SLOTS ==> Slot(m1, k) == Slot(m, k);
        b, m' := GetOrAllocate(d, m1, i);
        OnlyTransitive(old(S()), v, S(), d);
        if b != 0 { GrownTwice(old(S()), m, v, m1, S(), m', d, i, b); }
      }
    }

    /** Read a block as raw data.  If it was last written through another view, its
        bytes are unspecified here. */
    method ReadRaw(b: nat) returns (bytes: seq<bv8>)
      ensures |bytes| == BLOCK && (IsRaw(disk, b) ==> bytes == disk[b].bytes)
    {
      bytes := if IsRaw(disk, b) then disk[b].bytes else seq(BLOCK, _ => 0);
    }
  
    /** How far one turn of the copy loop gets in block i, and where in it it starts. */
    method NextStop(i: nat, off: nat, end: nat) returns (raw: nat, off': nat)
      requires off < end && i == off / BLOCK
      ensures Turn(i, raw, off, off', end) && raw + (off' - off) <= BLOCK
    {
      raw := off % BLOCK;
      off' := off + if BLOCK - raw < end - off then BLOCK - raw else end - off;
    }

    /** What block b is written over: zeros at offset 0, what it holds elsewhere. */
    method BaseOf(b: nat, off: nat) returns (base: seq<bv8>)
      ensures |base| == BLOCK && (off == 0 ==> forall j :: 0 <= j < BLOCK ==> base[j] == 0)
      ensures off > 0 && IsRaw(disk, b) ==> base == disk[b].bytes
    {
      base := seq(BLOCK, _ => 0);
      if off > 0 {
        base := ReadRaw(b);
      }
    }

    /** The part of the data that goes to block b, in a block of zeros at offset 0 and in
        what the block holds elsewhere. */
    method PutChunk(ghost v0: Fs, ghost m0: Map, ghost v: Fs, ghost m: Map, d: nat, ghost i: nat, b: nat, ghost m': Map,
                    ghost data: seq<bv8>, ghost at: nat, off: nat, raw: nat, ghost off': nat, chunk: seq<bv8>)
      requires Valid() && v0.Inv() && v0.IsFile(d) && Copying(v0, m0, v, m, d, data, at, off) && off < at + |data|
      requires MapGrown(v, m, S(), m', d, i) && Slot(m', i) == b && Turn(i, raw, off, off', at + |data|)
      requires raw + |chunk| <= BLOCK && chunk == data[off - at..off' - at]
      modifies this`disk
      ensures Valid() && Copying(v0, m0, S(), m', d, data, at, off')
    {
      var base := BaseOf(b, off);
      ghost var v1 := S();
      disk := disk[b := Raw(Patch(base, raw, chunk))];
      CopyStep(v0, m0, v, m, d, data, at, off, off', v1, m', i, raw, base, chunk, S());
    }

    /** One turn of the copy loop of dzfs_write. */
    method CopyChunk(ghost v0: Fs, ghost m0: Map, d: nat, m: Map, data: seq<bv8>, at: nat, off: nat, ghost end: nat)
      returns (ok: bool, m': Map, off': nat, ghost cost: nat)
      requires end == at + |data| && end <= MAX_FILE
      requires Valid() && v0.Inv() && v0.IsFile(d) && m0 == MapOf(v0.disk, d)
      requires Copying(v0, m0, S(), m, d, data, at, off) && off < at + |data|
      modifies this`disk, this`free, this`own
      ensures Valid()
      ensures !ok ==> free == {} && Card(old(free)) < Need(m, off, end) && Partial(v0, S(), d, data, at, off)
      ensures ok ==> off < off' && Copying(v0, m0, S(), m', d, data, at, off')
      ensures ok ==> Card(free) == Card(old(free)) - cost && Need(m, off, end) == cost + Need(m', off', end)
    {
      ghost var v := S();
      var i := off / BLOCK;
      var b;
      b, m' := GrowMap(d, m, i);
      ok, off', cost := b != 0, off, Cost(m, i);
      if ok {
        off' := FillBlock(v0, m0, v, m, d, i, b, m', data, at, off, end);
      } else {
        CostNeeded(m, off, end);
        Stopped(v0, m0, v, m, d, data, at, off, S());
      }
    }

    /** PutChunk, and what the rest of the data will need after it. */
    method FillBlock(ghost v0: Fs, ghost m0: Map, ghost v: Fs, ghost m: Map, d: nat, i: nat, b: nat,
                     ghost m': Map, data: seq<bv8>, at: nat, off: nat, ghost end: nat)
      returns (off': nat)
      requires end == at + |data| && end <= MAX_FILE && i == off / BLOCK
      requires Valid() && v0.Inv() && v0.IsFile(d) && Copying(v0, m0, v, m, d, data, at, off) && off < at + |data|
      requires MapGrown(v, m, S(), m', d, i) && Slot(m', i) == b
      modifies this`disk
      ensures Valid() && off < off' && Copying(v0, m0, S(), m', d, data, at, off')
      ensures off' <= end && Need(m, off, end) == Cost(m, i) + Need(m', off', end)
    {
      ghost var v1 := S();
      var raw;
      raw, off' := NextStop(i, off, at + |data|);
      PutChunk(v0, m0, v, m, d, i, b, m', data, at, off, raw, off', data[off - at..off' - at]);
      NeedTurn(v, m, v1, m', d, i, raw, off, off', end);
    }

    /** The copy loop of dzfs_write. */
    method CopyAll(ghost v0: Fs, d: nat, data: seq<bv8>, at: nat, ghost end: nat)
      returns (ok: bool, m: Map, ghost off: nat)
      requires Valid() && v0 == S() && v0.IsFile(d) && end == at + |data| && end <= MAX_FILE
      modifies this`disk, this`free, this`own
      ensures Valid() && Shaped(MapOf(v0.disk, d))
      ensures ok ==> Copying(v0, MapOf(v0.disk, d), S(), m, d, data, at, end)
      ensures ok ==> Card(free) == Card(v0.free) - Wanted(v0.disk, d, at, |data|)
      ensures !ok ==> free == {} && Card(v0.free) < Wanted(v0.disk, d, at, |data|) && Partial(v0, S(), d, data, at, off)
    {
      StartCopy(v0, d, data, at);
      ghost var m0, cost := MapOf(v0.disk, d), 0;
      m := MapOf(disk, d);
      var o := at;
      off := at;
      while o < at + |data|
        invariant Valid() && Copying(v0, m0, S(), m, d, data, at, o)
        invariant Card(free) - Need(m, o, end) == Card(v0.free) - Need(m0, at, end)
      {
        off := o;
        ok, m, o, cost := CopyChunk(v0, m0, d, m, data, at, o, end);
        if !ok {
          return;
        }
      }
      ok := true;
    }

    /** dzfs_write.  It succeeds exactly if the blocks it lacks are free; else every free
        block is gone and the file is as it was, as far as its pointers go. */
    method Write(d: nat, data: seq<bv8>, offset: nat) returns (st: Status)
      requires Valid() && S().IsDnode(d)
      modifies this`disk, this`free, this`own
      ensures Valid() && (old(S().IsFile(d)) ==> Shaped(MapOf(old(disk), d)))
      ensures st == (if !old(S().IsFile(d)) then ErrArgument
                     else if |data| + offset > MAX_FILE then ErrLimit
                     else if offset > old(disk[d].size) then ErrArgument
                     else if Wanted(old(disk), d, offset, |data|) <= Card(old(free)) then Ok else ErrFull)
      ensures st == ErrArgument || st == ErrLimit ==> S() == old(S())
      ensures st == ErrFull ==> free == {} && exists off :: Partial(old(S()), S(), d, data, offset, off)
      ensures st == Ok ==> Wrote(old(S()), S(), d, data, offset)
      ensures st == Ok ==> Card(free) == Card(old(free)) - Wanted(old(disk), d, offset, |data|)
    {
      assert S().DnodeOk(d);
      var dnode := disk[d];
      if !dnode.File? {
        return ErrArgument;
      }
      if |data| + offset > MAX_FILE {
        return ErrLimit;
      }
      if offset > dnode.size {
        return ErrArgument;
      }
      ghost var v0, off := S(), 0;
      var ok, m;
      ok, m, off := CopyAll(v0, d, data, offset, offset + |data|);
      if !ok {
        return ErrFull;
      }
      Finish(v0, d, dnode, m, data, offset, |data|);
      return Ok;
    }

    /** The last writes of dzfs_write, of the buffers for the indirect block and the dnode. */
    method Finish(ghost v0: Fs, d: nat, dnode: Block, m: Map, ghost data: seq<bv8>, ghost at: nat, n: nat)
      requires Valid() && v0.Inv() && v0.IsFile(d) && dnode == v0.disk[d] && n == |data|
      requires Copying(v0, MapOf(v0.disk, d), S(), m, d, data, at, at + |data|)
      modifies this`disk
      ensures Valid() && Wrote(v0, S(), d, data, at)
    {
      ghost var v := S();
      if m.indirect != 0 {
        disk := disk[m.indirect := Indirect(m.ptrs)];
      }
      disk := disk[d := File(dnode.name, (dnode.size + n) % UINT32, m.indirect, m.direct)];
      WroteAll(v0, v, m, d, data, at, S());
    }

    /** dzfs_read: at most n bytes from `offset` on, fewer at the end of the file. */
    method Read(d: nat, n: nat, offset: nat) returns (st: Status, buf: seq<bv8>)
      requires Valid() && S().IsDnode(d)
      // the block index stays inside the pointer arrays
      requires S().IsFile(d) && offset < disk[d].size ==> offset + n <= MAX_FILE || disk[d].size <= MAX_FILE
      ensures st == if S().IsFile(d) then Ok else ErrArgument
      ensures st == Ok ==> |buf| == (if offset >= disk[d].size then 0
                                     else if disk[d].size - offset < n then disk[d].size - offset else n)
      ensures st == Ok ==> Shaped(MapOf(disk, d)) && |buf| <= MAX_FILE
      ensures st == Ok ==> forall k :: 0 <= k < |buf| ==>
        offset + k < MAX_FILE &&
        (Slot(MapOf(disk, d), (offset + k) / BLOCK) != 0 ==> buf[k] == Byte(S(), d, offset + k))
      ensures st == Ok && Clean(S(), d) && offset < disk[d].size ==> buf == Content(S(), d)[offset..offset + |buf|]
    {
      assert S().DnodeOk(d);
      buf := [];
      var dnode := disk[d];
      if !dnode.File? {
        return ErrArgument, buf;
      }
      var m := MapOf(disk, d);
      if offset >= dnode.size {
        return Ok, buf;
      }
      var end := if dnode.size - offset < n then dnode.size else offset + n;
      var off := offset;
      while off < end
        invariant offset <= off <= end <= MAX_FILE && |buf| == off - offset
        invariant GotBytes(S(), d, offset, buf)
      {
        var i, raw := off / BLOCK, off % BLOCK;
        assert S().SlotOk(m, d, i);
        var bytes := ReadRaw(Slot(m, i));
        var len := if BLOCK - raw < end - off then BLOCK - raw else end - off;
        GotMore(S(), d, offset, buf, off, bytes, len);
        buf := buf + bytes[raw..raw + len];
        off := off + len;
      }
      assert forall k :: 0 <= k < |buf| ==> offset + k < MAX_FILE && GotByte(S(), d, offset + k, buf[k]);
      return Ok, buf;
    }

    /** Write at any offset the file allows, then read the same range: the bytes come
        back, as long as the 32-bit size does not wrap around. */
    method WriteThenRead(d: nat, data: seq<bv8>, offset: nat) returns (st: Status, buf: seq<bv8>)
      requires Valid() && S().IsFile(d) && disk[d].size + |data| < UINT32
      modifies this`disk, this`free, this`own
      ensures Valid() && (st == Ok ==> buf == data)
    {
      buf := [];
      ghost var v := S();
      st := Write(d, data, offset);
      if st == Ok {
        st, buf := Read(d, |data|, offset);
        forall k | 0 <= k < |data| ensures k < |buf| && buf[k] == data[k] {
          WrittenBytes(v, S(), d, data, offset, offset + k);
        }
      }
    }

    /** Free the blocks listed in s up to the first 0: the loops of dzfs_delete. */
    method FreeRun(s: seq<nat>)
      requires Bitmaps(disk, nb) && Synced(disk, nb, free)
      requires forall i :: 0 <= i < Count(s) ==> s[i] < nb * COVERED
      modifies this`disk, this`free
      ensures free == old(free) + Listed(s)
      ensures Bitmaps(disk, nb) && Synced(disk, nb, free) && SameButBitmaps(old(disk), disk, nb)
    {
      var i := 0;
      while i < |s| && s[i] != 0
        invariant i <= Count(s)
        invariant free == old(free) + set k | 0 <= k < i :: s[k]
        invariant Bitmaps(disk, nb) && Synced(disk, nb, free) && SameButBitmaps(old(disk), disk, nb)
      {
        BlockFree(s[i]);
        i := i + 1;
      }
    }

    /** The first part of dzfs_delete: give back the data blocks of a file. */
    method FreeData(d: nat)
      requires Valid() && S().IsFile(d)
      modifies this`disk, this`free
      ensures free + {d} == old(free) + Given(old(disk), d) && (d in free <==> d in old(free))
      ensures Bitmaps(disk, nb) && Synced(disk, nb, free) && SameButBitmaps(old(disk), disk, nb)
    {
      ListsFit(S(), d);
      var dnode := disk[d];
      if dnode.indirect != 0 {
        FreeRun(disk[dnode.indirect].ptrs);
      }
      FreeRun(dnode.direct);
    }

    /** The test of dzfs_delete that a folder is empty. */
    method IsEmpty(contents: seq<nat>) returns (empty: bool)
      requires Packed(contents)
      ensures empty <==> Count(contents) == 0
    {
      var i := 0;
      while i < |contents|
        invariant i <= |contents| && forall j :: 0 <= j < i ==> contents[j] == 0
      {
        if contents[i] != 0 {
          return false;
        }
        i := i + 1;
      }
      return true;
    }

    /** dzfs_delete of an entity with the parent folder that open returned for it. */
    method Delete(d: nat, p: nat) returns (st: Status, ghost k: nat)
      requires Valid() && S().IsDnode(d) && (d != root ==> d in par && p == par[d])
      modifies this`disk, this`free, this`own, this`par
      ensures Valid()
      ensures st == (if d == root then ErrArgument
                     else if old(S().IsFolder(d)) && Count(old(disk[d].contents)) != 0 then ErrNotEmpty else Ok)
      ensures st != Ok ==> S() == old(S())
      ensures st == Ok ==> Removed(old(S()), S(), d, p, k, Given(old(disk), d))
    {
      k := 0;
      if d == root {
        return ErrArgument, k;
      }
      ghost var v := S();
      assert v.DnodeOk(d) && v.DnodeOk(p) && v.Holds(0, Meta);
      var dnode := disk[d];
      if dnode.File? {
        FreeData(d);
      } else {
        var empty := IsEmpty(dnode.contents);
        if !empty {
          return ErrNotEmpty, k;
        }
      }
      k := DropEntity(v, d, p);
      st := Ok;
    }

    /** The second part of dzfs_delete: the entry in the parent and the dnode. */
    method DropEntity(ghost v: Fs, d: nat, p: nat) returns (ghost k: nat)
      requires v.Inv() && v.IsDnode(d) && d != v.Root() && d in v.par && p == v.par[d]
      requires v.IsFolder(d) ==> Count(v.disk[d].contents) == 0
      requires nb == v.nb && total == v.total && par == v.par && root == v.Root()
      requires SameButBitmaps(v.disk, disk, nb) && Bitmaps(disk, nb) && Synced(disk, nb, free)
      requires d in v.disk && free + {d} == v.free + Given(v.disk, d)
      modifies this`disk, this`free, this`own, this`par
      ensures Valid() && Removed(v, S(), d, p, k, Given(v.disk, d))
    {
      assert v.DnodeOk(d) && v.DnodeOk(p) && v.Holds(0, Meta);
      k := Unlist(d, p);
      assert disk.Keys == v.disk.Keys;
      Disown(v, d, p, k);
    }

    /** The blocks of d belong to nobody any more. */
    ghost method Disown(v: Fs, d: nat, p: nat, k: nat)
      requires v.Inv() && v.IsDnode(d) && d != v.Root() && d in v.par && p == v.par[d] && v.IsFolder(p) && p != d
      requires v.IsFolder(d) ==> Count(v.disk[d].contents) == 0
      requires nb == v.nb && total == v.total && par == v.par && root == v.Root() && disk.Keys == v.disk.Keys
      requires k < Count(v.disk[p].contents) && v.disk[p].contents[k] == d && p in disk
      requires disk[p] == v.disk[p].(contents := RemoveAt(v.disk[p].contents, k))
      requires forall b :: b in v.disk && b != p && !(2 <= b < 2 + nb) ==> disk[b] == v.disk[b]
      requires Bitmaps(disk, nb) && Synced(disk, nb, free) && d in v.disk && free == v.free + Given(v.disk, d)
      modifies this`own, this`par
      ensures Valid() && Removed(v, S(), d, p, k, Given(v.disk, d))
    {
      own := map b | b in v.own && !PartOf(v, b, d) :: v.own[b];
      par := par - {d};
      if v.disk[d].File? { GivenOwned(v, d); }
      assert Removed(v, S(), d, p, k, Given(v.disk, d));
      RemovedKeeps(v, S(), d, p, k, Given(v.disk, d));
    }

    /** Take d out of folder p and mark its block free. */
    method Unlist(d: nat, p: nat) returns (k: nat)
      requires Bitmaps(disk, nb) && Synced(disk, nb, free) && 0 < d < nb * COVERED && p >= 2 + nb
      requires p in disk && disk[p].Folder? && Packed(disk[p].contents) && d in disk[p].contents
      modifies this`disk, this`free
      ensures free == old(free) + {d} && Bitmaps(disk, nb) && Synced(disk, nb, free)
      ensures k < Count(old(disk[p].contents)) && old(disk[p].contents)[k] == d
      ensures disk.Keys == old(disk.Keys) && p in disk
      ensures disk[p] == old(disk[p]).(contents := RemoveAt(old(disk[p].contents), k))
      ensures forall b :: b in disk && b != p && !(2 <= b < 2 + nb) ==> disk[b] == old(disk)[b]
    {
      var folder := disk[p];
      var found, contents;
      found, contents, k := FolderRemove(folder.contents, d);
      OtherWrite(disk, nb, free, p, folder.(contents := contents));
      disk := disk[p := folder.(contents := contents)];
      BlockFree(d);
    }
  
    /** The creating branch of dzfs_open_relative: a new entity in folder p. */
    method Create(p: nat, name: string, dir: bool) returns (st: Status, r: nat)
      requires Valid() && S().IsFolder(p) && NewName(S(), p, name)
      modifies this`disk, this`free, this`own, this`par
      ensures Valid()
      ensures st == (if Count(old(disk[p].contents)) == MAX_DIR then ErrLimit
                     else if old(free) == {} then ErrFull else Ok)
      ensures st != Ok ==> S() == old(S())
      ensures st == Ok ==> Created(old(S()), S(), p, r, Blank(name, dir, p)) && forall b :: b in old(free) ==> r <= b
    {
      r := 0;
      ghost var v := S();
      assert v.DnodeOk(p);
      var folder := disk[p];
      var size := Count(folder.contents);
      if size == MAX_DIR {
        return ErrLimit, r;
      }
      r := BlockAlloc();
      if r == 0 {
        assert free == v.free;
        return ErrFull, r;
      }
      assert r !in v.own && r > v.Root();
      Enter(p, r, folder.(contents := folder.contents[size := r]), Blank(name, dir, p));
      Enrol(v, p, r, Blank(name, dir, p));
      st := Ok;
    }

    /** The new entity has its place. */
    ghost method Enrol(v: Fs, p: nat, r: nat, block: Block)
      requires v.Inv() && v.IsFolder(p) && r in v.free && Fresh(block, p) && NewName(v, p, NameOf(block))
      requires nb == v.nb && total == v.total && par == v.par && own == v.own && root == v.Root()
      requires free == v.free - {r}
      requires Count(v.disk[p].contents) < MAX_DIR == |v.disk[p].contents| && Bitmaps(disk, nb)
      requires Synced(disk, nb, free) && p in disk && r in disk
      requires disk.Keys == v.disk.Keys && disk[r] == block
      requires disk[p] == v.disk[p].(contents := v.disk[p].contents[Count(v.disk[p].contents) := r])
      requires forall b :: b in v.disk && b != p && b != r && !(2 <= b < 2 + nb) ==> disk[b] == v.disk[b]
      modifies this`own, this`par
      ensures Valid() && Created(v, S(), p, r, block)
    {
      assert v.DnodeOk(p) && r !in v.own && r > v.Root();
      own, par := own[r := Dnode], par[r := p];
      CreatedKeeps(v, S(), p, r, block);
    }

    /** The two block writes of a creation. */
    method Enter(p: nat, r: nat, folder: Block, block: Block)
      requires Bitmaps(disk, nb) && Synced(disk, nb, free) && p >= 2 + nb && r >= 2 + nb && p != r
      requires p in disk && r in disk
      modifies this`disk
      ensures disk == old(disk)[p := folder][r := block] && Bitmaps(disk, nb) && Synced(disk, nb, free)
    {
      OtherWrite(disk, nb, free, p, folder);
      disk := disk[p := folder];
      OtherWrite(disk, nb, free, r, block);
      disk := disk[r := block];
    }

    /** The search loop of dzfs_open_relative and folder_lookup_name. */
    method FindName(contents: seq<nat>, name: string) returns (c: nat)
      requires forall i :: 0 <= i < Count(contents) ==> contents[i] in disk
      ensures c == Find(disk, contents, name)
    {
      var i := 0;
      while i < |contents| && contents[i] != 0
        invariant i <= Count(contents)
        invariant Find(disk, contents, name) == Find(disk, contents[i..], name)
      {
        assert contents[i..][1..] == contents[i + 1..];
        if NameOf(disk[contents[i]]) == name {
          return contents[i];
        }
        i := i + 1;
      }
      c := 0;
    }

    /** The entity called `name` in folder d, or 0. */
    method LookUp(d: nat, name: string) returns (c: nat)
      requires Valid() && S().IsFolder(d)
      ensures if c == 0 then Child(disk, d, name).None? && NewName(S(), d, name)
              else Child(disk, d, name) == Some(c) && S().IsDnode(c) && c in disk
    {
      ghost var v := S();
      assert v.DnodeOk(d);
      forall i | 0 <= i < Count(disk[d].contents) ensures disk[d].contents[i] in disk {
        assert v.ChildOk(d, disk[d].contents[i]);
      }
      c := FindName(disk[d].contents, name);
      if c == 0 {
        FindNoneBack(disk, disk[d].contents, name);
      } else {
        ChildKnows(v, d, name);
      }
    }

    /** The loop of dzfs_open_relative that strips ./ and ../ steps. */
    method StripDots(path: string, rel: nat) returns (rest: string, d: nat)
      requires Valid() && S().IsFolder(rel)
      ensures d == Climb(disk, rel, path) && rest == Strip(path) && S().IsFolder(d)
    {
      rest, d := path, rel;
      while true
        invariant S().IsFolder(d)
        invariant Climb(disk, d, rest) == Climb(disk, rel, path) && Strip(rest) == Strip(path)
        decreases |rest|
      {
        ClimbFolder(S(), d, rest);
        if Starts(rest, "./") {
          rest := rest[2..];
        } else if Starts(rest, "../") {
          if disk[d].parent != 0 {
            d := disk[d].parent;
          }
          rest := rest[3..];
        } else {
          if rest == ".." {
            if disk[d].parent != 0 {
              d := disk[d].parent;
            }
            rest := "";
          }
          return;
        }
      }
    }

    /** The descent of dzfs_open_relative from folder d along a path that is not empty. */
    method Descend(d: nat, path: string, create: bool, dir: bool) returns (st: Status, dnode: nat, parent: nat)
      requires Valid() && S().IsFolder(d) && path != "" && GoodParts(Parts(path))
      modifies this`disk, this`free, this`own, this`par
      ensures Valid()
      ensures Opened(old(S()), S(), d, Parts(path), create, dir, st, dnode, parent)
    {
      dnode, parent := 0, 0;
      ghost var v, ps, k := S(), Parts(path), 0;
      var cur, rest := d, path;
      while true
        invariant S() == v && v.Inv() && v.IsFolder(cur) && rest != "" && k < |ps|
        invariant Parts(rest) == ps[k..] && Reach(v.disk, d, ps[..k]) == Some(cur)
        decreases |rest|
      {
        LastPartParts(rest);
        ReachStep(v.disk, d, ps, k);
        var name := rest[..PartLen(rest)];
        var c := LookUp(cur, name);
        if c == 0 {
          if !create || !LastPart(rest) {
            OpenFails(v, d, ps, k, create, dir);
            return ErrNotFound, dnode, parent;
          }
          assert ps[..|ps| - 1] == ps[..k] && ps[..k + 1] == ps;
          st, dnode := Create(cur, name, dir);
          parent := cur;
          return;
        }
        if LastPart(rest) {
          assert ps[..k + 1] == ps && ps[..|ps| - 1] == ps[..k];
          return Ok, c, cur;
        }
        assert v.DnodeOk(c);
        if !disk[c].Folder? {
          OpenFails(v, d, ps, k + 1, create, dir);
          return ErrNotFound, dnode, parent;
        }
        cur, rest, k := c, rest[PartLen(rest) + 1..], k + 1;
      }
    }

    /** dzfs_open_absolute and dzfs_open_relative, which call each other until the
        leading slashes are gone. */
    method Open(path: string, rel: nat, create: bool, dir: bool) returns (st: Status, dnode: nat, parent: nat)
      requires Valid() && S().IsFolder(rel) && GoodParts(Parts(Start(disk, root, rel, path).1))
      modifies this`disk, this`free, this`own, this`par
      ensures Valid()
      ensures OpenedPath(old(S()), S(), rel, path, create, dir, st, dnode, parent)
      decreases |path|
    {
      assert S().DnodeOk(root) && S().IsFolder(root);
      if path == "/" {
        return Ok, root, root;
      }
      if Slash(path) {
        st, dnode, parent := Open(path[1..], root, create, dir);
        return;
      }
      var rest, d := StripDots(path, rel);
      if rest == "" || rest == "." {
        return Ok, d, disk[d].parent;
      }
      st, dnode, parent := Descend(d, rest, create, dir);
    }

    /** dzfs_write at the end of the file. */
    method Append(d: nat, data: seq<bv8>) returns (st: Status)
      requires Valid() && Clean(S(), d)
      modifies this`disk, this`free, this`own
      ensures Valid() && Shaped(MapOf(old(disk), d))
      ensures st == (if old(disk[d].size) + |data| > MAX_FILE then ErrLimit
                     else if Wanted(old(disk), d, old(disk[d].size), |data|) <= Card(old(free)) then Ok else ErrFull)
      ensures st == Ok ==> Appended(old(S()), S(), d, data)
      ensures st != Ok ==> Only(old(S()), S(), d) && Clean(S(), d) && Content(S(), d) == old(Content(S(), d))
      ensures st == ErrLimit ==> S() == old(S())
    {
      ghost var v := S();
      st := Write(d, data, disk[d].size);
      if st == Ok {
        AppendContent(v, S(), d, data);
      } else if st == ErrFull {
        ghost var off :| Partial(v, S(), d, data, v.disk[d].size, off);
        FailedAppend(v, S(), d, data, off);
      } else {
        SameSnapshot(v, S(), d);
      }
    }

    /** Appends, one call of dzfs_write each.  If all succeed, the file is the
        concatenation of the pieces and only its own blocks left the bitmap. */
    method AppendAll(d: nat, pieces: seq<seq<bv8>>) returns (st: Status)
      requires Valid() && Clean(S(), d)
      modifies this`disk, this`free, this`own
      ensures Valid() && (st == Ok ==> Appended(old(S()), S(), d, Concat(pieces)))
    {
      ghost var v0 := S();
      var i := 0;
      AppendedNone(v0, d);
      while i < |pieces|
        invariant Valid() && i <= |pieces| && Appended(v0, S(), d, Concat(pieces[..i]))
      {
        ghost var v := S();
        st := Append(d, pieces[i]);
        if st != Ok {
          return;
        }
        ConcatStep(pieces, i);
        AppendedTwice(v0, v, S(), d, Concat(pieces[..i]), pieces[i]);
        i := i + 1;
      }
      assert pieces[..|pieces|] == pieces;
      return Ok;
    }

    /** Create a file, which gives the state v1, and append any pieces to it. */
    method CreateFilled(p: nat, name: string, pieces: seq<seq<bv8>>) returns (st: Status, d: nat, ghost v1: Fs)
      requires Valid() && S().IsFolder(p) && NewName(S(), p, name)
      modifies this`disk, this`free, this`own, this`par
      ensures Valid()
      ensures st == Ok ==> v1.Inv() && Created(old(S()), v1, p, d, Blank(name, false, p))
      ensures st == Ok ==>
        Appended(v1, S(), d, Concat(pieces)) && Content(v1, d) == [] && Blocks(MapOf(v1.disk, d)) == {}
    {
      ghost var v := S();
      assert v.DnodeOk(p);
      st, d := Create(p, name, false);
      v1 := S();
      if st != Ok {
        return;
      }
      BlankIsClean(v, v1, p, d, name);
      st := AppendAll(d, pieces);
    }

    /** Create a file, append any pieces to it and delete it again.  If no call fails,
        the parent folder and the bitmap are what they were, except that the indirect
        block of a file of more than 956 blocks stays marked as used.  `last` is the
        state before the deletion. */
    method CreateAppendDelete(p: nat, name: string, pieces: seq<seq<bv8>>) returns (st: Status, d: nat, ghost last: Fs)
      requires Valid() && S().IsFolder(p) && NewName(S(), p, name)
      modifies this`disk, this`free, this`own, this`par
      ensures Valid()
      ensures st == Ok ==> p in disk && disk[p] == old(disk)[p]
      ensures st == Ok ==> Clean(last, d) && Content(last, d) == Concat(pieces)
      ensures st == Ok && |Concat(pieces)| <= DIRECT * BLOCK ==> free == old(free)
      ensures st == Ok && |Concat(pieces)| > DIRECT * BLOCK ==>
        last.disk[d].indirect in old(free) && free == old(free) - {last.disk[d].indirect}
    {
      ghost var v, v1, k := S(), S(), 0;
      st, d, v1 := CreateFilled(p, name, pieces);
      last := S();
      if st != Ok {
        return;
      }
      FilledParent(v, v1, last, p, d, name, Concat(pieces));
      st, k := Delete(d, p);
      Restored(v, v1, last, S(), p, d, k, name);
    }

    /** dzfs_open_relative on behalf of a client. */
    method ServeOpen(path: string, rel: nat, create: bool, dir: bool, known: map<nat, nat>, ghost a: View)
      returns (r: Answer, known': map<nat, nat>)
      requires Valid() && Serves(S(), known, a)
      modifies this`disk, this`free, this`own, this`par
      ensures Valid() && Serves(S(), known', After(a, CallOpen(path, rel, create, dir), r))
      ensures OpenAnswered(Moment(old(S()), known), Moment(S(), known'), path, rel, create, dir, r)
    {
      r, known' := Refused, known;
      ghost var v := S();
      if rel != root && rel !in known {
        return;
      }
      assert v.IsFolder(root) && v.DnodeOk(rel);
      if !disk[rel].Folder? || !GoodParts(Parts(Start(disk, root, rel, path).1)) {
        return;
      }
      var st, d, p := Open(path, rel, create, dir);
      OpenServes(v, S(), known, a, path, rel, create, dir, st, d, p);
      r := Answer(st, d, []);
      known' := if st == Ok then known[d := p] else known;
    }

    method ServeWrite(d: nat, data: seq<bv8>, offset: nat, known: map<nat, nat>, ghost a: View) returns (r: Answer)
      requires Valid() && Serves(S(), known, a)
      modifies this`disk, this`free, this`own
      ensures Valid() && Serves(S(), known, After(a, CallWrite(d, data, offset), r))
      ensures AnswerOk(a, CallWrite(d, data, offset), r)
      ensures WriteAnswered(Moment(old(S()), known), Moment(S(), known), d, data, offset, r)
    {
      r := Refused;
      if d in known {
        ghost var v := S();
        var st := Write(d, data, offset);
        WriteServes(v, S(), known, a, d, data, offset, st);
        r := Answer(st, d, []);
      }
    }

    method ServeRead(d: nat, n: nat, offset: nat, known: map<nat, nat>, ghost a: View) returns (r: Answer)
      requires Valid() && Serves(S(), known, a)
      ensures AnswerOk(a, CallRead(d, n, offset), r)
      ensures ReadAnswered(Moment(S(), known), d, n, offset, r)
    {
      r := Refused;
      if d in known && (disk[d].File? ==> disk[d].size <= MAX_FILE || offset + n <= MAX_FILE) {
        var st, buf := Read(d, n, offset);
        r := Answer(st, d, buf);
      }
    }

    method ServeDelete(d: nat, known: map<nat, nat>, ghost a: View) returns (r: Answer, known': map<nat, nat>)
      requires Valid() && Serves(S(), known, a)
      modifies this`disk, this`free, this`own, this`par
      ensures Valid() && Serves(S(), known', After(a, CallDelete(d), r))
      ensures DeleteAnswered(Moment(old(S()), known), Moment(S(), known'), d, r)
    {
      r, known' := Refused, known;
      if d in known {
        ghost var v, k := S(), 0;
        var st;
        st, k := Delete(d, known[d]);
        r := Answer(st, d, []);
        if st == Ok {
          DeleteServes(v, S(), known, a, d, known[d], k);
          known' := known - {d};
        }
      }
    }

    method Serve(call: Call, known: map<nat, nat>, ghost a: View) returns (r: Answer, known': map<nat, nat>)
      requires Valid() && Serves(S(), known, a)
      modifies this`disk, this`free, this`own, this`par
      ensures Valid() && Serves(S(), known', After(a, call, r)) && AnswerOk(a, call, r)
      ensures Answered(Moment(old(S()), known), Moment(S(), known'), call, r)
    {
      known' := known;
      match call
      case CallOpen(path, rel, create, dir) => r, known' := ServeOpen(path, rel, create, dir, known, a);
      case CallWrite(d, data, offset) => r := ServeWrite(d, data, offset, known, a);
      case CallRead(d, n, offset) => r := ServeRead(d, n, offset, known, a);
      case CallDelete(d) => r, known' := ServeDelete(d, known, a);
    }

    /** Any sequence of calls by a client that uses only dnodes an open gave it and it
        has not deleted, and deletes them with the parent that open gave it; `known` maps
        those dnodes to their parents.  Every block keeps its one owner, every entity its
        path from the root, and every file that was created and only appended to is the
        sequence of bytes that were appended, which is what reads return.  `trace` is the
        history: every answer is the one its call calls for. */
    method Run(calls: seq<Call>) returns (known: map<nat, nat>, answers: seq<Answer>, ghost trace: seq<Moment>)
      requires Valid() && Rooted(S())
      modifies this`disk, this`free, this`own, this`par
      ensures Valid() && |answers| == |calls| && Serves(S(), known, Play(Dnodes(old(S())), calls, answers))
      ensures forall i :: 0 <= i < |calls| ==>
        AnswerOk(Play(Dnodes(old(S())), calls[..i], answers[..i]), calls[i], answers[i])
      ensures History(trace, calls, answers, Moment(old(S()), map[]), Moment(S(), known), |calls|)
    {
      known, answers, trace := map[], [], [Moment(S(), map[])];
      ghost var live := Dnodes(S());
      for i := 0 to |calls|
        invariant Valid() && |answers| == i && Serves(S(), known, Play(live, calls[..i], answers))
        invariant forall j :: 0 <= j < i ==> AnswerOk(Play(live, calls[..j], answers[..j]), calls[j], answers[j])
        invariant History(trace, calls, answers, Moment(old(S()), map[]), Moment(S(), known), i)
      {
        ghost var was := answers;
        var r;
        r, known := Serve(calls[i], known, Play(live, calls[..i], answers));
        answers := answers + [r];
        trace := trace + [Moment(S(), known)];
        PlayMore(live, calls, was, answers, i, r);
      }
      assert calls[..|calls|] == calls;
    }
  }

  /** What a client can ask for. */
  datatype Call =
    | CallOpen(path: string, rel: nat, create: bool, dir: bool)
    | CallWrite(d: nat, data: seq<bv8>, offset: nat)
    | CallRead(d: nat, n: nat, offset: nat)
    | CallDelete(d: nat)

  /** What it gets: nothing for a dnode it does not know or a path dzFS has no room for. */
  datatype Answer = Refused | Answer(st: Status, dnode: nat, buf: seq<bv8>)

  /** The disk, and the dnodes a client knows with their parents. */
  datatype Moment = Moment(fs: Fs, known: map<nat, nat>)

  ghost predicate OpenAnswered(m: Moment, m': Moment, path: string, rel: nat, create: bool, dir: bool, r: Answer) {
    if (rel != m.fs.Root() && rel !in m.known) || !m.fs.IsFolder(rel)
      || !GoodParts(Parts(Start(m.fs.disk, m.fs.Root(), rel, path).1))
    then r.Refused? && m' == m
    else r.Answer? && exists parent: nat ::
      OpenedPath(m.fs, m'.fs, rel, path, create, dir, r.st, r.dnode, parent)
      && m'.known == if r.st == Ok then m.known[r.dnode := parent] else m.known
  }

  ghost predicate WriteAnswered(m: Moment, m': Moment, d: nat, data: seq<bv8>, offset: nat, r: Answer) {
    if d !in m.known then r.Refused? && m' == m
    else
      && r.Answer? && m'.known == m.known && (m.fs.IsFile(d) ==> Shaped(MapOf(m.fs.disk, d)))
      && r.st == (if !m.fs.IsFile(d) then ErrArgument
                  else if |data| + offset > MAX_FILE then ErrLimit
                  else if offset > m.fs.disk[d].size then ErrArgument
                  else if Wanted(m.fs.disk, d, offset, |data|) <= Card(m.fs.free) then Ok else ErrFull)
      && (r.st == Ok ==> Wrote(m.fs, m'.fs, d, data, offset))
      && (r.st == ErrFull ==> exists off :: Partial(m.fs, m'.fs, d, data, offset, off))
      && (r.st != Ok && r.st != ErrFull ==> m'.fs == m.fs)
  }

  ghost predicate ReadAnswered(m: Moment, d: nat, n: nat, offset: nat, r: Answer) {
    if d !in m.known || (m.fs.IsFile(d) && m.fs.disk[d].size > MAX_FILE && offset + n > MAX_FILE) then r.Refused?
    else
      && r.Answer? && r.st == (if m.fs.IsFile(d) then Ok else ErrArgument)
      && (r.st == Ok && Clean(m.fs, d) ==> r.buf == Part(Content(m.fs, d), offset, n))
  }

  ghost predicate DeleteAnswered(m: Moment, m': Moment, d: nat, r: Answer) {
    if d !in m.known then r.Refused? && m' == m
    else
      && r.Answer? && r.st == (if d == m.fs.Root() then ErrArgument
                               else if m.fs.IsFolder(d) && Count(m.fs.disk[d].contents) != 0 then ErrNotEmpty else Ok)
      && (r.st != Ok ==> m' == m)
      && (r.st == Ok ==> d in m.fs.disk && m'.known == m.known - {d})
      && (r.st == Ok ==> exists k :: Removed(m.fs, m'.fs, d, m.known[d], k, Given(m.fs.disk, d)))
  }

  /** What a call does and answers: it is refused only for a dnode the client does not
      know, a path dzFS has no room for, or a read past the pointer arrays. */
  ghost predicate Answered(m: Moment, m': Moment, call: Call, r: Answer) {
    match call
    case CallOpen(path, rel, create, dir) => OpenAnswered(m, m', path, rel, create, dir, r)
    case CallWrite(d, data, offset) => WriteAnswered(m, m', d, data, offset, r)
    case CallRead(d, n, offset) => m' == m && ReadAnswered(m, d, n, offset, r)
    case CallDelete(d) => DeleteAnswered(m, m', d, r)
  }

  /** The first n calls lead from m to m' by way of the moments of the trace. */
  ghost predicate History(trace: seq<Moment>, calls: seq<Call>, answers: seq<Answer>, m: Moment, m': Moment, n: nat) {
    && |trace| == n + 1 && n == |answers| <= |calls| && trace[0] == m && trace[n] == m'
    && forall i :: 0 <= i < n ==> Answered(trace[i], trace[i + 1], calls[i], answers[i])
  }

  /** What a client can say about the disk from the calls and answers alone: the entities
      there are, and the bytes of the files created and only appended to. */
  datatype View = View(live: set<nat>, files: map<nat, seq<bv8>>)

  function After(a: View, call: Call, r: Answer): (a': View) {
    if r.Refused? then a else
    match call
    case CallOpen(_, _, _, dir) =>
      if r.st != Ok || r.dnode in a.live then a
      else View(a.live + {r.dnode}, if dir then a.files else a.files[r.dnode := []])
    case CallWrite(d, data, offset) =>
      if d !in a.files || r.st == ErrLimit || r.st == ErrArgument then a
      else if offset != |a.files[d]| then a.(files := a.files - {d})
      else if r.st == Ok then a.(files := a.files[d := a.files[d] + data])
      else a
    case CallRead(_, _, _) => a
    case CallDelete(d) => if r.st == Ok then View(a.live - {d}, a.files - {d}) else a
  }

  function Play(live: set<nat>, calls: seq<Call>, answers: seq<Answer>): (a: View)
    requires |calls| == |answers|
  {
    if calls == [] then View(live, map[])
    else After(Play(live, calls[..|calls| - 1], answers[..|calls| - 1]), calls[|calls| - 1], answers[|calls| - 1])
  }

  lemma PlayMore(live: set<nat>, calls: seq<Call>, was: seq<Answer>, answers: seq<Answer>, i: nat, r: Answer)
    requires i < |calls| && |was| == i && answers == was + [r]
    ensures Play(live, calls[..i + 1], answers) == After(Play(live, calls[..i], was), calls[i], r)
    ensures forall j :: 0 <= j <= i ==> answers[..j] == was[..j]
  {
    assert calls[..i + 1][..i] == calls[..i] && answers[..i] == was;
  }

  /** The part of s a read of n bytes at `offset` is for. */
  function Part(s: seq<bv8>, offset: nat, n: nat): (r: seq<bv8>) {
    if offset >= |s| then [] else if |s| - offset < n then s[offset..] else s[offset..offset + n]
  }

  /** Reads return the bytes appended before, and appends fail only for lack of space. */
  ghost predicate AnswerOk(a: View, call: Call, r: Answer) {
    && (r.Answer? && call.CallRead? && call.d in a.files ==>
          r.st == Ok && r.buf == Part(a.files[call.d], call.offset, call.n))
    && (r.Answer? && call.CallWrite? && call.d in a.files && call.offset == |a.files[call.d]| ==>
          && (r.st == Ok || r.st == ErrFull || r.st == ErrLimit)
          && (r.st == ErrLimit <==> |a.files[call.d]| + |call.data| > MAX_FILE))
  }

  ghost function Dnodes(v: Fs): (s: set<nat>)
    ensures forall d :: d in s <==> v.IsDnode(d)
  {
    set d | d in v.own && v.own[d] == Dnode
  }

  /** File d is clean and its content is s. */
  ghost predicate Reads(v: Fs, d: nat, s: seq<bv8>) {
    Clean(v, d) && Content(v, d) == s
  }

  /** The disk is as the view says. */
  ghost predicate Shows(v: Fs, a: View) {
    a.live == Dnodes(v) && forall d :: d in a.files ==> Reads(v, d, a.files[d])
  }

  ghost predicate Serves(v: Fs, known: map<nat, nat>, a: View) {
    Knows(v, known) && Rooted(v) && Shows(v, a)
  }

  /** Creating an entity changes no file. */
  lemma CreatedReads(v: Fs, v': Fs, p: nat, r: nat, block: Block, e: nat, s: seq<bv8>)
    requires v.Inv() && Created(v, v', p, r, block) && Fresh(block, p) && Reads(v, e, s)
    ensures Reads(v', e, s)
  {
    assert v.own[e] == Dnode && e != p && r !in v.own;
    CreatedOther(v, v', p, r, block, e);
  }

  /** Deleting one changes no other file. */
  lemma RemovedReads(v: Fs, v': Fs, d: nat, p: nat, k: nat, freed: set<nat>, e: nat, s: seq<bv8>)
    requires v.Inv() && Removed(v, v', d, p, k, freed) && e != d && Reads(v, e, s)
    ensures Reads(v', e, s)
  {
    DnodeStays(v, v', d, p, k, freed, e);
    RemovedOther(v, v', d, p, k, freed, e);
  }

  lemma OpenServes(v: Fs, v': Fs, known: map<nat, nat>, a: View, path: string, rel: nat, create: bool, dir: bool,
                   st: Status, dnode: nat, parent: nat)
    requires v.Inv() && v'.Inv() && v.IsFolder(rel) && Serves(v, known, a)
    requires OpenedPath(v, v', rel, path, create, dir, st, dnode, parent)
    ensures Serves(v', if st == Ok then known[dnode := parent] else known,
                   After(a, CallOpen(path, rel, create, dir), Answer(st, dnode, [])))
  {
    OpenKnows(v, v', known, path, rel, create, dir, st, dnode, parent);
    StartFolder(v, rel, path);
    var (d, rest) := Start(v.disk, v.Root(), rel, path);
    if v' != v {
      var name := Parts(rest)[|Parts(rest)| - 1];
      var block := Blank(name, dir, parent);
      NewThere(v, v', d, Parts(rest), create, dir, dnode, parent);
      CreatedRooted(v, v', parent, dnode, block);
      CreatedShows(v, v', a, parent, dnode, name, dir);
    }
  }

  /** An open that changes something creates an entity whose name is new in its folder. */
  lemma NewThere(v: Fs, v': Fs, d: nat, ps: seq<string>, create: bool, dir: bool, dnode: nat, parent: nat)
    requires v.Inv() && v.IsFolder(d) && v' != v && Opened(v, v', d, ps, create, dir, Ok, dnode, parent)
    ensures Created(v, v', parent, dnode, Blank(ps[|ps| - 1], dir, parent)) && NewName(v, parent, ps[|ps| - 1])
  {
    assert v.DnodeOk(parent);
    FindNoneBack(v.disk, v.disk[parent].contents, ps[|ps| - 1]);
  }

  lemma CreatedShows(v: Fs, v': Fs, a: View, p: nat, r: nat, name: string, dir: bool)
    requires v.Inv() && v'.Inv() && Shows(v, a) && Created(v, v', p, r, Blank(name, dir, p))
    ensures r !in a.live && Shows(v', View(a.live + {r}, if dir then a.files else a.files[r := []]))
  {
    assert v.DnodeOk(p) && r !in v.own;
    assert Dnodes(v') == Dnodes(v) + {r};
    if !dir { BlankIsClean(v, v', p, r, name); }
    forall e | e in a.files ensures e != r && Reads(v', e, a.files[e]) {
      assert Reads(v, e, a.files[e]);
      CreatedReads(v, v', p, r, Blank(name, dir, p), e, a.files[e]);
    }
  }

  lemma WriteServes(v: Fs, v': Fs, known: map<nat, nat>, a: View, d: nat, data: seq<bv8>, offset: nat, st: Status)
    requires v.Inv() && v'.Inv() && Serves(v, known, a) && v.IsDnode(d)
    requires st == ErrArgument || st == ErrLimit ==> v' == v
    requires st == ErrFull ==> exists off :: Partial(v, v', d, data, offset, off)
    requires st == Ok ==> Wrote(v, v', d, data, offset) && offset + |data| <= MAX_FILE
    requires st == Ok || st == ErrFull || st == ErrArgument || st == ErrLimit
    ensures Serves(v', known, After(a, CallWrite(d, data, offset), Answer(st, d, [])))
  {
    if st == Ok || st == ErrFull {
      WriteKnows(v, v', known, d);
      OnlyRooted(v, v', d);
      OnlyDnodes(v, v', d);
      forall e | e in a.files && e != d ensures Reads(v', e, a.files[e]) {
        assert Reads(v, e, a.files[e]);
        OtherContent(v, v', d, e);
      }
      if d in a.files && offset == |a.files[d]| {
        assert Reads(v, d, a.files[d]);
        if st == Ok {
          AppendContent(v, v', d, data);
        } else {
          var off :| Partial(v, v', d, data, offset, off);
          FailedAppend(v, v', d, data, off);
        }
      }
    }
  }

  lemma OnlyDnodes(v: Fs, v': Fs, d: nat)
    requires Only(v, v', d)
    ensures Dnodes(v') == Dnodes(v)
  {
    forall e ensures e in Dnodes(v) <==> e in Dnodes(v') { assert e in v.own ==> v'.Holds(e, v.own[e]); }
  }

  lemma DeleteServes(v: Fs, v': Fs, known: map<nat, nat>, a: View, d: nat, p: nat, k: nat)
    requires v.Inv() && v'.Inv() && Serves(v, known, a) && d in v.disk && Removed(v, v', d, p, k, Given(v.disk, d))
    ensures Serves(v', known - {d}, View(a.live - {d}, a.files - {d}))
  {
    DeleteKnows(v, v', known, d, p, k);
    RemovedRooted(v, v', d, p, k, Given(v.disk, d));
    forall e | e in Dnodes(v) && e != d ensures e in Dnodes(v') { DnodeStays(v, v', d, p, k, Given(v.disk, d), e); }
    assert Dnodes(v') == Dnodes(v) - {d};
    forall e | e in a.files && e != d ensures Reads(v', e, a.files[e]) {
      assert Reads(v, e, a.files[e]);
      RemovedReads(v, v', d, p, k, Given(v.disk, d), e, a.files[e]);
    }
  }

  /** Every known dnode is live and its known parent is its parent. */
  ghost predicate Knows(v: Fs, known: map<nat, nat>) {
    forall d :: d in known ==> v.IsDnode(d) && (d != v.Root() ==> d in v.par && v.par[d] == known[d])
  }

  /** What open returns is a live dnode and its parent. */
  lemma OpenGives(v: Fs, v': Fs, d: nat, ps: seq<string>, create: bool, dir: bool, dnode: nat, parent: nat)
    requires v.Inv() && v'.Inv() && v.IsFolder(d) && Opened(v, v', d, ps, create, dir, Ok, dnode, parent)
    ensures v'.IsDnode(dnode) && dnode != v'.Root() && dnode in v'.par && v'.par[dnode] == parent
  {
    if Reach(v.disk, d, ps).Some? {
      ReachFrom(v, d, ps[..|ps| - 1]);
      ChildKnows(v, parent, ps[|ps| - 1]);
    }
  }

  lemma ReachFrom(v: Fs, d: nat, ps: seq<string>)
    requires v.Inv() && v.IsFolder(d) && Reach(v.disk, d, ps).Some?
    ensures v.IsDnode(Reach(v.disk, d, ps).value) && Reach(v.disk, d, ps).value in v.disk
  {
    if ps != [] {
      ReachFrom(v, d, ps[..|ps| - 1]);
      ChildKnows(v, Reach(v.disk, d, ps[..|ps| - 1]).value, ps[|ps| - 1]);
    }
  }

  lemma StartFolder(v: Fs, rel: nat, path: string)
    requires v.Inv() && v.IsFolder(rel)
    ensures v.IsFolder(Start(v.disk, v.Root(), rel, path).0)
    decreases |path|
  {
    assert v.IsFolder(v.Root());
    if path != "/" {
      if Slash(path) { StartFolder(v, v.Root(), path[1..]); } else { ClimbFolder(v, rel, path); }
    }
  }

  lemma OpenKnows(v: Fs, v': Fs, known: map<nat, nat>, path: string, rel: nat, create: bool, dir: bool,
                  st: Status, dnode: nat, parent: nat)
    requires v.Inv() && v'.Inv() && v.IsFolder(rel) && Knows(v, known)
    requires OpenedPath(v, v', rel, path, create, dir, st, dnode, parent)
    ensures Knows(v', if st == Ok then known[dnode := parent] else known)
  {
    StartFolder(v, rel, path);
    var (d, rest) := Start(v.disk, v.Root(), rel, path);
    if rest == "" || rest == "." {
      assert v.DnodeOk(d);
    } else if st == Ok {
      OpenGives(v, v', d, Parts(rest), create, dir, dnode, parent);
    }
  }

  lemma WriteKnows(v: Fs, v': Fs, known: map<nat, nat>, d: nat)
    requires Knows(v, known) && (v' == v || (v.IsFile(d) && Only(v, v', d)))
    ensures Knows(v', known)
  {
    forall e | e in known && v' != v ensures v'.IsDnode(e) { assert v'.Holds(e, v.own[e]); }
  }

  lemma DeleteKnows(v: Fs, v': Fs, known: map<nat, nat>, d: nat, p: nat, k: nat)
    requires v.Inv() && Knows(v, known) && d in v.disk && Removed(v, v', d, p, k, Given(v.disk, d))
    ensures Knows(v', known - {d})
  {
    forall e | e in known && e != d ensures v'.IsDnode(e) { DnodeStays(v, v', d, p, k, Given(v.disk, d), e); }
  }

  /** The bookkeeping of CreateAppendDelete: v, then v1 with the new file d, v2 with
      the data, v3 without the file. */
  lemma Restored(v: Fs, v1: Fs, v2: Fs, v3: Fs, p: nat, d: nat, k: nat, name: string)
    requires v.Inv() && Created(v, v1, p, d, Blank(name, false, p)) && Shaped(MapOf(v1.disk, d))
    requires Blocks(MapOf(v1.disk, d)) == {} && v2.Inv() && Clean(v2, d) && v2.IsFolder(p)
    requires v2.disk[p] == v1.disk[p] && v2.free == v1.free - Blocks(MapOf(v2.disk, d))
    requires Blocks(MapOf(v2.disk, d)) <= v1.free
    requires d in v2.disk && Removed(v2, v3, d, p, k, Given(v2.disk, d))
    ensures v3.disk[p] == v.disk[p]
    ensures v2.disk[d].size <= DIRECT * BLOCK ==> v3.free == v.free
    ensures v2.disk[d].size > DIRECT * BLOCK ==>
      v2.disk[d].indirect in v.free && v3.free == v.free - {v2.disk[d].indirect}
  {
    assert v.DnodeOk(p);
    LastEntry(v2, p, d, k, Count(v.disk[p].contents));
    AddRemove(v.disk[p].contents, d);
    GivenAll(v2, d);
    BlocksSplit(v2, d);
    assert v2.disk[d].size > DIRECT * BLOCK ==> v2.disk[d].indirect in Blocks(MapOf(v2.disk, d));
  }

  /** Appending to the new file leaves its folder and its place in it alone. */
  lemma FilledParent(v: Fs, v1: Fs, v2: Fs, p: nat, d: nat, name: string, data: seq<bv8>)
    requires v.Inv() && v1.Inv() && Created(v, v1, p, d, Blank(name, false, p)) && Appended(v1, v2, d, data)
    ensures v2.IsFolder(p) && v2.disk[p] == v1.disk[p] && v2.IsDnode(d) && d != v2.Root() && d in v2.par
    ensures v2.par[d] == p
    ensures p in v1.disk && d in v2.disk
  {
    assert v.DnodeOk(p);
    assert v1.own[p] == Dnode && v2.Holds(d, v1.own[d]) && v2.Holds(p, v1.own[p]) && v2.disk[p] == v1.disk[p];
  }

  /** What an open along the components ps from folder d does and returns. */
  ghost predicate Opened(v: Fs, v': Fs, d: nat, ps: seq<string>, create: bool, dir: bool,
                         st: Status, dnode: nat, parent: nat)
  {
    && |ps| >= 1
    && var folder, name := Reach(v.disk, d, ps[..|ps| - 1]), ps[|ps| - 1];
    match Reach(v.disk, d, ps)
    case Some(c) => st == Ok && dnode == c && folder == Some(parent) && v' == v
    case None =>
      if create && folder.Some? && v.IsFolder(folder.value) then
        && st == (if Count(v.disk[folder.value].contents) == MAX_DIR then ErrLimit
                  else if v.free == {} then ErrFull else Ok)
        && (st != Ok ==> v' == v)
        && (st == Ok ==> parent == folder.value && Created(v, v', parent, dnode, Blank(name, dir, parent)))
      else st == ErrNotFound && v' == v
  }

  /** What an open of a path from folder rel does and returns. */
  ghost predicate OpenedPath(v: Fs, v': Fs, rel: nat, path: string, create: bool, dir: bool,
                             st: Status, dnode: nat, parent: nat)
  {
    var (d, rest) := Start(v.disk, v.Root(), rel, path);
    if rest == "" || rest == "."
    then st == Ok && dnode == d && d in v.disk && v.disk[d].Folder? && parent == v.disk[d].parent && v' == v
    else Opened(v, v', d, Parts(rest), create, dir, st, dnode, parent)
  }

  /** From the folder c called n in d, ".." is d, and "../" before a path opens what the
      path opens from d. */
  lemma OpenUp(v: Fs, v': Fs, d: nat, n: string, c: nat, x: string, create: bool, dir: bool,
               st: Status, dnode: nat, parent: nat)
    requires v.Inv() && v.IsFolder(d) && Child(v.disk, d, n) == Some(c) && v.IsFolder(c) && !Slash(x)
    ensures OpenedPath(v, v', c, "../" + x, create, dir, st, dnode, parent) <==>
      OpenedPath(v, v', d, x, create, dir, st, dnode, parent)
    ensures OpenedPath(v, v', c, "..", create, dir, st, dnode, parent) <==>
      st == Ok && dnode == d && ParentIs(v, d, parent) && v' == v
  {
    ChildKnows(v, d, n);
    StepUp(v, c, x);
    assert v.DnodeOk(d);
  }

  /** Above the root is the root. */
  lemma OpenUpRoot(v: Fs, v': Fs, x: string, create: bool, dir: bool, st: Status, dnode: nat, parent: nat)
    requires v.Inv() && !Slash(x)
    ensures OpenedPath(v, v', v.Root(), "../" + x, create, dir, st, dnode, parent) <==>
      OpenedPath(v, v', v.Root(), x, create, dir, st, dnode, parent)
    ensures OpenedPath(v, v', v.Root(), "..", create, dir, st, dnode, parent) <==>
      st == Ok && dnode == v.Root() && parent == v.Root() && v' == v
  {
    StepUp(v, v.Root(), x);
    assert v.DnodeOk(v.Root());
  }

  /** "./" changes nothing, and a leading slash starts at the root. */
  lemma OpenFrom(v: Fs, v': Fs, rel: nat, x: string, create: bool, dir: bool, st: Status, dnode: nat, parent: nat)
    ensures !Slash(x) ==>
      OpenedPath(v, v', rel, "./" + x, create, dir, st, dnode, parent) ==
      OpenedPath(v, v', rel, x, create, dir, st, dnode, parent)
    ensures OpenedPath(v, v', rel, "/" + x, create, dir, st, dnode, parent) <==>
      OpenedPath(v, v', v.Root(), x, create, dir, st, dnode, parent)
  {
    StepHere(v.disk, rel, x);
    StartSlash(v.disk, v.Root(), rel, x);
    if !Slash(x) {
      StartPlain(v.disk, v.Root(), rel, x);
      StartPlain(v.disk, v.Root(), rel, "./" + x);
    }
  }

  /** "." and the empty path are the folder itself, and a path that begins with a name
      starts there. */
  lemma OpenThere(v: Fs, v': Fs, rel: nat, x: string, create: bool, dir: bool, st: Status, dnode: nat, parent: nat)
    requires v.Inv() && v.IsFolder(rel)
    ensures x == "" || x == "." ==>
      OpenedPath(v, v', rel, x, create, dir, st, dnode, parent) ==
      (st == Ok && dnode == rel && ParentIs(v, rel, parent) && v' == v)
    ensures Named(x) ==>
      OpenedPath(v, v', rel, x, create, dir, st, dnode, parent) ==
      Opened(v, v', rel, Parts(x), create, dir, st, dnode, parent)
  {
    assert v.DnodeOk(rel);
    if x == "" || x == "." || Named(x) {
      NoStep(v.disk, rel, x);
      StartPlain(v.disk, v.Root(), rel, x);
    }
  }

  /** Folder p lists d, or both are the root. */
  ghost predicate ParentIs(v: Fs, d: nat, p: nat) {
    if d == v.Root() then p == d else v.IsFolder(p) && d in v.disk[p].contents && d in v.par && v.par[d] == p
  }

  /** The path begins with the name of an entity. */
  predicate Named(x: string) {
    x != "" && x != "." && x != ".." && !Starts(x, "./") && !Starts(x, "../") && !Slash(x)
  }

  /** An open that gets to component k and no further, and has nothing to create. */
  lemma OpenFails(v: Fs, d: nat, ps: seq<string>, k: nat, create: bool, dir: bool)
    requires k < |ps| && Reach(v.disk, d, ps[..k]).Some?
    requires Child(v.disk, Reach(v.disk, d, ps[..k]).value, ps[k]).None?
    requires create && k + 1 == |ps| ==> !v.IsFolder(Reach(v.disk, d, ps[..k]).value)
    ensures Opened(v, v, d, ps, create, dir, ErrNotFound, 0, 0)
  {
    ReachStep(v.disk, d, ps, k);
    ReachStuck(v.disk, d, ps, k + 1);
    if k + 1 < |ps| {
      assert ps[..|ps| - 1][..k + 1] == ps[..k + 1];
      ReachStuck(v.disk, d, ps[..|ps| - 1], k + 1);
    } else {
      assert ps[..|ps| - 1] == ps[..k];
    }
  }

  /** A successful creating open of an absolute path makes the path lead to the new
      dnode, leaves every other path alone and keeps sibling names apart. */
  lemma OpenCreates(v: Fs, v': Fs, ps: seq<string>, dir: bool, dnode: nat, parent: nat, qs: seq<string>)
    requires v.Inv() && v'.Inv() && Opened(v, v', v.Root(), ps, true, dir, Ok, dnode, parent)
    ensures Reach(v'.disk, v'.Root(), ps) == Some(dnode)
    ensures qs != ps ==> Reach(v'.disk, v'.Root(), qs) == Reach(v.disk, v.Root(), qs)
    ensures v'.IsFolder(parent) && v'.Siblings(v'.disk[parent].contents, Count(v'.disk[parent].contents))
  {
    var ps', name := ps[..|ps| - 1], ps[|ps| - 1];
    assert ps == ps' + [name];
    if Reach(v.disk, v.Root(), ps).None? {
      assert v.DnodeOk(parent);
      FindNoneBack(v.disk, v.disk[parent].contents, name);
      CreatedReach(v, v', parent, dnode, Blank(name, dir, parent), ps', ps);
      CreatedReach(v, v', parent, dnode, Blank(name, dir, parent), ps', qs);
    } else {
      ReachDnode(v, ps');
      assert v.DnodeOk(parent);
    }
    assert v'.DnodeOk(parent);
  }

  function Concat(pieces: seq<seq<bv8>>): (s: seq<bv8>) {
    if pieces == [] then [] else Concat(pieces[..|pieces| - 1]) + pieces[|pieces| - 1]
  }

  /** Only file d has changed: its content is followed by data, and its new blocks came
      from the bitmap. */
  ghost predicate Appended(v: Fs, v': Fs, d: nat, data: seq<bv8>) {
    && Only(v, v', d) && Clean(v, d) && Clean(v', d) && Content(v', d) == Content(v, d) + data
    && Shaped(MapOf(v.disk, d)) && Shaped(MapOf(v'.disk, d)) && Blocks(MapOf(v.disk, d)) <= Blocks(MapOf(v'.disk, d))
    && Blocks(MapOf(v'.disk, d)) - Blocks(MapOf(v.disk, d)) <= v.free && v'.free == v.free - Blocks(MapOf(v'.disk, d))
  }

  lemma AppendedNone(v: Fs, d: nat)
    requires v.Inv() && Clean(v, d)
    ensures Appended(v, v, d, [])
  {
    BlocksOwnedOnDisk(v, d);
    SameSnapshot(v, v, d);
  }

  lemma AppendedTwice(v0: Fs, v: Fs, v': Fs, d: nat, data: seq<bv8>, more: seq<bv8>)
    requires Appended(v0, v, d, data) && Appended(v, v', d, more)
    ensures Appended(v0, v', d, data + more)
  {
    OnlyTransitive(v0, v, v', d);
    TakenTwice(Blocks(MapOf(v0.disk, d)), Blocks(MapOf(v.disk, d)), Blocks(MapOf(v'.disk, d)), v0.free, v.free,
               v'.free);
    assert Content(v0, d) + (data + more) == Content(v0, d) + data + more;
  }

  lemma ConcatStep(pieces: seq<seq<bv8>>, i: nat)
    requires i < |pieces|
    ensures Concat(pieces[..i + 1]) == Concat(pieces[..i]) + pieces[i]
  {
    assert pieces[..i + 1][..i] == pieces[..i];
  }

  lemma BlocksOwnedOnDisk(v: Fs, d: nat)
    requires v.Inv() && v.IsFile(d)
    ensures Shaped(MapOf(v.disk, d)) && forall b :: b in Blocks(MapOf(v.disk, d)) ==> b in v.own && b !in v.free
  {
    assert v.DnodeOk(d);
    BlocksOwned(v, MapOf(v.disk, d), d);
  }

  /** A new file is clean and empty. */
  lemma BlankIsClean(v: Fs, v': Fs, p: nat, r: nat, name: string)
    requires v.Inv() && v'.Inv() && Created(v, v', p, r, Blank(name, false, p))
    ensures Clean(v', r) && Content(v', r) == [] && Blocks(MapOf(v'.disk, r)) == {}
  {
    var m := MapOf(v'.disk, r);
    assert forall i :: 0 <= i < SLOTS ==> Slot(m, i) == 0;
  }

  /** The place of d in folder p is the one it was given. */
  lemma LastEntry(v: Fs, p: nat, d: nat, k: nat, n: nat)
    requires v.Inv() && v.IsFolder(p) && k < Count(v.disk[p].contents) && v.disk[p].contents[k] == d
    requires n < |v.disk[p].contents| && v.disk[p].contents[n] == d && d != 0
    ensures k == n
  {
    assert v.DnodeOk(p);
    var s := v.disk[p].contents;
    assert forall i :: Count(s) <= i < |s| ==> s[i] == 0;
  }

  /** Deleting a clean file gives back its dnode and all its data blocks. */
  lemma GivenAll(v: Fs, d: nat)
    requires v.Inv() && Clean(v, d)
    ensures forall i :: 0 <= i < SLOTS && Slot(MapOf(v.disk, d), i) != 0 ==>
      Slot(MapOf(v.disk, d), i) in Given(v.disk, d)
    ensures Given(v.disk, d) <= {d} + Blocks(MapOf(v.disk, d))
  {
    var m, size := MapOf(v.disk, d), v.disk[d].size;
    assert Count(m.direct) < DIRECT ==> Slot(m, Count(m.direct)) == 0;
    assert Count(m.ptrs) < SLOTS - DIRECT ==> Slot(m, DIRECT + Count(m.ptrs)) == 0;
    forall i | 0 <= i < SLOTS && Slot(m, i) != 0 ensures Slot(m, i) in Given(v.disk, d) {
      if i < DIRECT {
        assert m.direct[i] in Listed(m.direct);
      } else {
        assert m.ptrs[i - DIRECT] in Listed(m.ptrs);
      }
    }
    forall b | b in Listed(m.direct) ensures b in Blocks(m) {
      var i :| 0 <= i < Count(m.direct) && m.direct[i] == b;
      assert Slot(m, i) == b;
    }
    forall b | b in Listed(m.ptrs) ensures b in Blocks(m) {
      var i :| 0 <= i < Count(m.ptrs) && m.ptrs[i] == b;
      assert Slot(m, DIRECT + i) == b;
    }
  }

  /** What a deletion does not give back is the indirect block. */
  lemma BlocksSplit(v: Fs, d: nat)
    requires v.Inv() && Clean(v, d)
    ensures Blocks(MapOf(v.disk, d)) - Given(v.disk, d) ==
      if v.disk[d].size > DIRECT * BLOCK then {v.disk[d].indirect} else {}
  {
    var m := MapOf(v.disk, d);
    assert v.DnodeOk(d);
    GivenAll(v, d);
    if m.indirect != 0 {
      forall i | 0 <= i < Count(m.direct) ensures m.direct[i] != m.indirect { assert v.SlotOk(m, d, i); }
      forall i | 0 <= i < Count(m.ptrs) ensures m.ptrs[i] != m.indirect { assert v.SlotOk(m, d, DIRECT + i); }
    }
    forall b | b in Blocks(m) && b !in Given(v.disk, d) ensures b == m.indirect && b != 0 {}
  }

  /** Deleting a file gives back all its blocks exactly if it has no indirect block and no
      gap among its direct blocks. */
  lemma DeleteGivesAll(v: Fs, d: nat)
    requires v.Inv() && v.IsFile(d)
    ensures Shaped(MapOf(v.disk, d))
    ensures Blocks(MapOf(v.disk, d)) <= Given(v.disk, d) <==> v.disk[d].indirect == 0 && Packed(v.disk[d].direct)
  {
    var m := MapOf(v.disk, d);
    assert v.DnodeOk(d);
    GivenRoles(v, d);
    if m.indirect != 0 {
      assert m.indirect in Blocks(m) && m.indirect !in Given(v.disk, d);
    } else {
      forall i | 0 <= i < DIRECT && m.direct[i] != 0 ensures m.direct[i] in Given(v.disk, d) <==> i < Count(m.direct) {
        assert Slot(m, i) == m.direct[i] && v.SlotOk(m, d, i);
        if i < Count(m.direct) { assert m.direct[i] in Listed(m.direct); }
      }
      if !Packed(m.direct) {
        var i :| Count(m.direct) <= i < DIRECT && m.direct[i] != 0;
        assert Slot(m, i) in Blocks(m);
      }
    }
  }

  /** A direct block past a gap is not given back. */
  lemma PastGapLost(v: Fs, d: nat, i: nat, j: nat)
    requires v.Inv() && v.IsFile(d) && Shaped(MapOf(v.disk, d)) && i < j < DIRECT
    requires v.disk[d].direct[i] == 0 && v.disk[d].direct[j] != 0
    ensures v.disk[d].direct[j] !in Given(v.disk, d)
  {
    assert Count(v.disk[d].direct) <= i;
    assert v.DnodeOk(d) && v.SlotOk(MapOf(v.disk, d), d, j);
    GivenRoles(v, d);
  }

  /** A write of the first block only leaves the others alone. */
  lemma OnlyFirst(v: Fs, v': Fs, d: nat, data: seq<bv8>)
    requires Wrote(v, v', d, data, 0) && |data| == BLOCK && v.disk[d].size + BLOCK < UINT32
    ensures Slot(MapOf(v'.disk, d), 1) == Slot(MapOf(v.disk, d), 1) && v'.disk[d].size == v.disk[d].size + BLOCK
  {
    assert GrownAt(MapOf(v.disk, d), MapOf(v'.disk, d), 0, BLOCK, 1);
  }

  /** A write of block 2 gives it a block and leaves block 1 alone. */
  lemma OnlyThird(v: Fs, v': Fs, d: nat, data: seq<bv8>)
    requires Wrote(v, v', d, data, 2 * BLOCK) && |data| == BLOCK
    ensures Slot(MapOf(v'.disk, d), 1) == Slot(MapOf(v.disk, d), 1) && Slot(MapOf(v'.disk, d), 2) != 0
  {
    var m, m' := MapOf(v.disk, d), MapOf(v'.disk, d);
    assert GrownAt(m, m', 2 * BLOCK, 2 * BLOCK + |data|, 1);
    assert ByteOk(v.disk, m, v'.disk, m', data, 2 * BLOCK, 2 * BLOCK + |data|, 2, 0);
  }

  /** Gaps happen: two overwrites of the first block of an empty file, which count twice in
      its size, and a write at that size. */
  lemma GapArises(v: Fs, v1: Fs, v2: Fs, v3: Fs, d: nat, data: seq<bv8>)
    requires Clean(v, d) && v.disk[d].size == 0 && |data| == BLOCK
    requires Wrote(v, v1, d, data, 0) && Wrote(v1, v2, d, data, 0) && Wrote(v2, v3, d, data, 2 * BLOCK)
    ensures v2.disk[d].size == 2 * BLOCK && v3.IsFile(d) && Shaped(MapOf(v3.disk, d))
    ensures v3.disk[d].direct[1] == 0 && v3.disk[d].direct[2] != 0
  {
    OnlyFirst(v, v1, d, data);
    OnlyFirst(v1, v2, d, data);
    OnlyThird(v2, v3, d, data);
    assert Slot(MapOf(v.disk, d), 1) == 0;
  }

  /** What a deletion gives back is the dnode and data blocks before the first gap. */
  lemma GivenRoles(v: Fs, d: nat)
    requires v.Inv() && v.IsFile(d) && Shaped(MapOf(v.disk, d))
    ensures forall b :: b in Given(v.disk, d) ==> b in v.own && (b == d || v.own[b].Data?)
    ensures forall b :: b in Given(v.disk, d) && b != d && v.own[b].i < DIRECT ==> v.own[b].i < Count(v.disk[d].direct)
  {
    var m := MapOf(v.disk, d);
    assert v.DnodeOk(d);
    forall i | 0 <= i < Count(m.direct) ensures v.Holds(m.direct[i], Data(d, i)) { assert v.SlotOk(m, d, i); }
    forall i | 0 <= i < Count(m.ptrs)
      ensures v.Holds(m.ptrs[i], Data(d, DIRECT + i))
    {
      assert v.SlotOk(m, d, DIRECT + i);
    }
  }

  /** x is byte k of file d if that byte has a block. */
  predicate GotByte(v: Fs, d: nat, k: nat, x: bv8)
    requires v.IsFile(d) && Shaped(MapOf(v.disk, d)) && k < MAX_FILE
  {
    Slot(MapOf(v.disk, d), k / BLOCK) != 0 ==> x == Byte(v, d, k)
  }

  predicate GotBytes(v: Fs, d: nat, offset: nat, buf: seq<bv8>) {
    && v.IsFile(d) && Shaped(MapOf(v.disk, d)) && offset + |buf| <= MAX_FILE
    && forall k :: 0 <= k < |buf| ==> GotByte(v, d, offset + k, buf[k])
  }

  lemma GotMore(v: Fs, d: nat, offset: nat, buf: seq<bv8>, off: nat, bytes: seq<bv8>, len: nat)
    requires GotBytes(v, d, offset, buf) && off == offset + |buf| && off + len <= MAX_FILE
    requires |bytes| == BLOCK && off % BLOCK + len <= BLOCK && off / BLOCK < SLOTS
    requires var b := Slot(MapOf(v.disk, d), off / BLOCK);
      b != 0 ==> IsRaw(v.disk, b) && bytes == v.disk[b].bytes
    ensures GotBytes(v, d, offset, buf + bytes[off % BLOCK..off % BLOCK + len])
  {
    var more := bytes[off % BLOCK..off % BLOCK + len];
    forall k | 0 <= k < |buf + more| ensures GotByte(v, d, offset + k, (buf + more)[k]) {
      if k >= |buf| { SameBlock(off, offset + k); }
    }
  }

  lemma SameBlock(a: nat, b: nat)
    requires a <= b && a % BLOCK + (b - a) < BLOCK
    ensures b / BLOCK == a / BLOCK && b % BLOCK == a % BLOCK + (b - a)
  {
  }

  /** The lists dzfs_delete goes through hold blocks of the disk other than d. */
  lemma ListsFit(v: Fs, d: nat)
    requires v.Inv() && v.IsFile(d)
    ensures var e := v.disk[d];
      && (forall i :: 0 <= i < Count(e.direct) ==> e.direct[i] < v.nb * COVERED)
      && (e.indirect == 0 ==> Listed(MapOf(v.disk, d).ptrs) == {})
      && (e.indirect != 0 ==> e.indirect in v.disk && v.disk[e.indirect].Indirect?)
      && (e.indirect != 0 ==> v.disk[e.indirect].ptrs == MapOf(v.disk, d).ptrs)
    ensures forall i :: 0 <= i < Count(MapOf(v.disk, d).ptrs) ==> MapOf(v.disk, d).ptrs[i] < v.nb * COVERED
    ensures d !in Listed(v.disk[d].direct) && d !in Listed(MapOf(v.disk, d).ptrs)
  {
    assert v.DnodeOk(d);
    GivenOwned(v, d);
    DataNotDnode(v, d);
    var direct, ptrs := v.disk[d].direct, MapOf(v.disk, d).ptrs;
    assert forall i :: 0 <= i < Count(direct) ==> direct[i] in Listed(direct);
    assert forall i :: 0 <= i < Count(ptrs) ==> ptrs[i] in Listed(ptrs);
    assert Listed(NoPtrs()) == {};
  }

  lemma DataNotDnode(v: Fs, d: nat)
    requires v.Inv() && v.IsFile(d)
    ensures d !in Listed(v.disk[d].direct) && d !in Listed(MapOf(v.disk, d).ptrs)
  {
    assert v.DnodeOk(d);
    var m := MapOf(v.disk, d);
    forall i | 0 <= i < Count(m.direct) ensures m.direct[i] != d { assert v.SlotOk(m, d, i); }
    forall i | 0 <= i < Count(m.ptrs) ensures m.ptrs[i] != d { assert v.SlotOk(m, d, DIRECT + i); }
  }

  /** The entries of s before the first 0. */
  function Listed(s: seq<nat>): (r: set<nat>) {
    set k | 0 <= k < Count(s) :: s[k]
  }

  /** The blocks dzfs_delete gives back: the dnode and, for a file, its data blocks as
      far as the first gap.  The indirect block is not among them. */
  function Given(disk: Disk, d: nat): (r: set<nat>)
    requires d in disk
  {
    {d} + if disk[d].File? then Listed(disk[d].direct) + Listed(MapOf(disk, d).ptrs) else {}
  }

  /** folder_remove_content */
  method FolderRemove(s: seq<nat>, target: nat) returns (found: bool, r: seq<nat>, k: nat)
    requires Packed(s) && target != 0
    ensures found <==> target in s
    ensures found ==> k < Count(s) && s[k] == target && r == RemoveAt(s, k)
    ensures !found ==> r == s
  {
    k := 0;
    while k < |s| && s[k] != target
      invariant k <= |s| && forall i :: 0 <= i < k ==> s[i] != target
    {
      k := k + 1;
    }
    found := k < |s|;
    if !found {
      return found, s, k;
    }
    var last := Count(s) - 1;
    if last == 0 {
      r := s[0 := 0];
    } else if last == k {
      r := s[last := 0];
    } else {
      r := s[k := s[last]][last := 0];
    }
  }

  lemma GivenOwned(v: Fs, d: nat)
    requires v.Inv() && v.IsFile(d)
    ensures forall b :: b in Given(v.disk, d) ==> b in v.own && PartOf(v, b, d) && b < v.total
  {
    assert v.DnodeOk(d);
    var m := MapOf(v.disk, d);
    forall i | 0 <= i < Count(m.direct) ensures v.Holds(m.direct[i], Data(d, i)) { assert v.SlotOk(m, d, i); }
    forall i | 0 <= i < Count(m.ptrs)
      ensures v.Holds(m.ptrs[i], Data(d, DIRECT + i))
    {
      assert v.SlotOk(m, d, DIRECT + i);
    }
  }

  lemma StartCopy(v: Fs, d: nat, data: seq<bv8>, at: nat)
    requires v.Inv() && v.IsFile(d) && at + |data| <= MAX_FILE
    ensures Copying(v, MapOf(v.disk, d), v, MapOf(v.disk, d), d, data, at, at)
  {
    var m := MapOf(v.disk, d);
    assert v.DnodeOk(d);
    SameSnapshot(v, v, d);
    BlocksOwned(v, m, d);
    forall i, j | 0 <= i < SLOTS && 0 <= j < BLOCK ensures ByteOk(v.disk, m, v.disk, m, data, at, at, i, j) {}
    forall i | 0 <= i < SLOTS ensures GrownAt(m, m, at, at, i) {}
  }

  lemma SameSnapshot(v: Fs, v': Fs, d: nat)
    requires v.Inv() && v.IsFile(d) && v'.nb == v.nb && v'.total == v.total && v'.par == v.par && v'.own == v.own
    requires v'.free == v.free && v'.disk == v.disk
    ensures Only(v, v', d)
  {
    assert v.DnodeOk(d);
  }

  lemma SameSlots(v: Fs, m: Map, m': Map, d: nat)
    requires v.MapOk(m, d) && m'.direct == m.direct && m'.ptrs == m.ptrs
    requires (m'.indirect != 0 ==> v.Holds(m'.indirect, Ind(d)))
    ensures v.MapOk(m', d)
  {
    forall k | 0 <= k < SLOTS ensures v.SlotOk(m', d, k) { assert v.SlotOk(m, d, k); }
  }

  /** A new file system is valid when the bitmap ends with the disk. */
  lemma FormatInv(v: Fs)
    requires v.total > 4 && v.nb == Pages(v.total) && v.total < 0x10_0000
    requires Bitmaps(v.disk, v.nb) && Synced(v.disk, v.nb, v.free) && v.free == Range(v.nb + 3, Limit(v.total))
    requires forall b :: 0 <= b < v.total ==> b in v.disk
    requires v.own == FirstRoles(v.nb)
    requires v.disk[v.Root()] == Folder("/", v.Root(), seq(MAX_DIR, _ => 0)) && v.par == map[]
    ensures v.Inv() <==> Limit(v.total) == v.total
  {
    var s := v.disk[v.Root()].contents;
    CountIs(s, 0);
    if Limit(v.total) > v.total { assert v.total in v.free; }
    SecondTest(v.total);
  }

  lemma FormatRooted(v: Fs)
    requires v.own == FirstRoles(v.nb)
    ensures Rooted(v)
  {
    assert Reach(v.disk, v.Root(), []) == Some(v.Root());
  }

  lemma NothingInByte(disk: Disk, nb: nat, free: set<nat>, p: nat, y: nat)
    requires Synced(disk, nb, free) && p < nb && BitmapAt(disk, p) && y < BLOCK && disk[2 + p].bits[y] == 0
    ensures forall b :: b in free && b >= p * COVERED + y * 8 ==> b >= p * COVERED + y * 8 + 8
  {
    forall b | b in free && b >= p * COVERED + y * 8 ensures b >= p * COVERED + y * 8 + 8 {
      assert IsFree(disk, nb, b);
      PartsNumber(b);
      NumberParts(p, y, b % 8);
    }
  }

  lemma LeastInByte(disk: Disk, nb: nat, free: set<nat>, p: nat, y: nat)
    requires Synced(disk, nb, free) && p < nb && BitmapAt(disk, p) && y < BLOCK && disk[2 + p].bits[y] != 0
    requires forall b :: b in free ==> b >= p * COVERED + y * 8
    ensures var r := Number(p, y, Ctz(disk[2 + p].bits[y])); r in free && forall b :: b in free ==> r <= b
  {
    var r := Number(p, y, Ctz(disk[2 + p].bits[y]));
    NumberParts(p, y, Ctz(disk[2 + p].bits[y]));
    assert IsFree(disk, nb, r);
    forall b | b in free ensures r <= b {
      assert IsFree(disk, nb, b);
      PartsNumber(b);
      var q, z := b / COVERED, b % COVERED / 8;
      assert q > p || (q == p && z > y) || (q == p && z == y);
    }
  }
}
