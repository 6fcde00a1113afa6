/** The bitmaps dzfs_new writes and the count dzfs_free_blocks takes
    (kernel/src/fs/dzfs.c). */
module DzFormat {
  import opened Prelude
  import opened DzBits
  import opened DzDisk
  import opened DzState

  /** Bit i of a bitmap block. */
  predicate On(bits: seq<bv8>, i: nat)
    requires |bits| == BLOCK
  {
    i < COVERED && Bit(bits[i / 8], i % 8)
  }

  /** bitmap_clear: indexes past the block are ignored. */
  function ClearAt(bits: seq<bv8>, i: nat): (r: seq<bv8>)
    requires |bits| == BLOCK
    ensures |r| == BLOCK && forall j: nat :: On(r, j) <==> On(bits, j) && j != i
  {
    if i / 8 >= BLOCK then bits else
    var r := bits[i / 8 := ClearBit(bits[i / 8], i % 8)];
    assert forall j: nat :: j != i && j / 8 == i / 8 ==> j % 8 != i % 8;
    r
  }

  method AllOnes() returns (bits: seq<bv8>)
    ensures |bits| == BLOCK && forall i: nat :: On(bits, i) <==> i < COVERED
  {
    bits := seq(BLOCK, _ => 0xFF as bv8);
  }

  /** Clear bits 0, ..., n - 1. */
  method ClearFirst(was: seq<bv8>, n: nat) returns (bits: seq<bv8>)
    requires |was| == BLOCK
    ensures |bits| == BLOCK && forall j: nat :: On(bits, j) <==> On(was, j) && j >= n
  {
    bits := was;
    for i := 0 to n
      invariant |bits| == BLOCK && forall j: nat :: On(bits, j) <==> On(was, j) && j >= i
    {
      bits := ClearAt(bits, i);
    }
  }

  /** The descending loop of dzfs_new over the block numbers from `top` - 1 down to
      `blocks`: the numbers are used as they are, also when the buffer stands for a
      later bitmap block. */
  method ClearTail(was: seq<bv8>, top: nat, blocks: nat) returns (bits: seq<bv8>)
    requires |was| == BLOCK && blocks <= top
    ensures |bits| == BLOCK && forall j: nat :: On(bits, j) <==> On(was, j) && !(blocks <= j < top)
  {
    bits := was;
    var id := top;  // one above last_block_id
    while id > blocks
      invariant blocks <= id <= top && |bits| == BLOCK
      invariant forall j: nat :: On(bits, j) <==> On(was, j) && !(id <= j < top)
    {
      id := id - 1;
      bits := ClearAt(bits, id);
    }
  }

  /** Number of bitmap blocks for a disk. */
  function Pages(blocks: nat): nat {
    (blocks + COVERED - 1) / COVERED
  }

  /** The second size test of dzfs_new never fails a disk that passed the first. */
  lemma SecondTest(blocks: nat)
    requires blocks > 4
    ensures blocks > 3 + Pages(blocks)
  {}

  /** Where the free blocks of a new file system end: at the end of the disk for one
      bitmap block, at the end of the bitmap otherwise. */
  function Limit(blocks: nat): nat {
    if Pages(blocks) == 1 then blocks else Pages(blocks) * COVERED
  }

  /** That is the end of the disk exactly for these sizes. */
  lemma LimitExact(blocks: nat)
    requires blocks > 4
    ensures Limit(blocks) == blocks <==> blocks <= COVERED || blocks % COVERED == 0
  {}

  /** Writing the root folder leaves the bitmap blocks alone. */
  lemma RootBeside(disk: Disk, disk': Disk, root: nat, block: Block, blocks: nat)
    requires disk' == disk[root := block] && root == 2 + Pages(blocks) && forall p :: 0 <= p < Pages(blocks) ==>
      PageOk(disk, blocks, p)
    ensures Bitmaps(disk', Pages(blocks)) && forall p :: 0 <= p < Pages(blocks) ==> PageOk(disk', blocks, p)
  {
    forall p: nat | p < Pages(blocks) ensures PageOk(disk', blocks, p) && BitmapAt(disk', p) {
      assert PageOk(disk, blocks, p);
      assert disk'[2 + p] == disk[2 + p];
    }
  }

  /** The bitmaps of a new file system mark exactly the blocks from nb + 3 on. */
  lemma FormatSynced(disk: Disk, blocks: nat)
    requires blocks > 4 && Pages(blocks) + 3 <= COVERED
    requires Bitmaps(disk, Pages(blocks))
    requires forall p :: 0 <= p < Pages(blocks) ==> PageOk(disk, blocks, p)
    ensures Synced(disk, Pages(blocks), Range(Pages(blocks) + 3, Limit(blocks)))
  {
    var nb := Pages(blocks);
    forall b: nat ensures b in Range(nb + 3, Limit(blocks)) <==> IsFree(disk, nb, b) {
      PartsNumber(b);
      if b < nb * COVERED {
        var p := b / COVERED;
        assert BitmapAt(disk, p) && PageOk(disk, blocks, p);
        assert On(disk[2 + p].bits, b % COVERED) == IsFree(disk, nb, b);
      }
    }
  }

  /** Bitmap block p of a new file system. */
  ghost predicate PageOk(disk: Disk, blocks: nat, p: nat) {
    BitmapAt(disk, p) && PageBits(disk[2 + p].bits, blocks, p)
  }

  ghost predicate PageBits(bits: seq<bv8>, blocks: nat, p: nat)
    requires |bits| == BLOCK
  {
    forall j: nat {:trigger On(bits, j)} :: On(bits, j) <==>
      j < COVERED && (p == 0 ==> j >= Pages(blocks) + 3) && (Pages(blocks) == 1 ==> j < blocks)
  }

  /** The roles on a new file system: metadata and the root folder. */
  function FirstRoles(nb: nat): (own: map<nat, Role>)
    ensures forall b: nat :: b in own <==> b <= 2 + nb
    ensures forall b :: b in own ==> own[b] == if b < 2 + nb then Meta else Dnode
  {
    var meta, all := Range(0, 2 + nb), Range(0, 3 + nb);
    map b | b in all :: if b in meta then Meta else Dnode
  }

  // ------------------------------------------------- counting

  /** The members of s below n. */
  function Below(s: set<nat>, n: nat): (r: set<nat>) {
    set b | b in s && b < n
  }

  lemma BelowStep(s: set<nat>, n: nat)
    ensures |Below(s, n + 1)| == |Below(s, n)| + if n in s then 1 else 0
  {
    assert Below(s, n + 1) == Below(s, n) + if n in s then {n} else {};
  }

  /** The first k bits of a byte of the bitmap account for k blocks. */
  lemma CountBits(disk: Disk, nb: nat, free: set<nat>, p: nat, y: nat, k: nat)
    requires Synced(disk, nb, free) && p < nb && BitmapAt(disk, p) && y < BLOCK && k <= 8
    ensures |Below(free, Number(p, y, k))| == |Below(free, Number(p, y, 0))| + |Below(Bits(disk[2 + p].bits[y]), k)|
  {
    if k == 0 {
      assert Below(Bits(disk[2 + p].bits[y]), 0) == {};
    } else {
      CountBits(disk, nb, free, p, y, k - 1);
      NumberParts(p, y, k - 1);
      assert IsFree(disk, nb, Number(p, y, k - 1)) <==> Number(p, y, k - 1) in free;
      BelowStep(free, Number(p, y, k - 1));
      BelowStep(Bits(disk[2 + p].bits[y]), k - 1);
    }
  }

  lemma CountByte(disk: Disk, nb: nat, free: set<nat>, p: nat, y: nat)
    requires Synced(disk, nb, free) && p < nb && BitmapAt(disk, p) && y < BLOCK
    ensures |Below(free, Number(p, y + 1, 0))| == |Below(free, Number(p, y, 0))| + |Bits(disk[2 + p].bits[y])|
  {
    CountBits(disk, nb, free, p, y, 8);
    assert Below(Bits(disk[2 + p].bits[y]), 8) == Bits(disk[2 + p].bits[y]);
    assert Number(p, y, 8) == Number(p, y + 1, 0);
  }
}
