/** The disk of dzFS: blocks and the free bitmap (kernel/src/fs/dzfs.h, dzfs.c).

    A block is what was last written to it.  The union of dzfs.h becomes a datatype
    with one constructor per view; FileSystem.Inv says that every block the code
    reads through a view was written through the same view. */
module DzDisk {
  import opened DzBits

  const BLOCK: nat := 4096
  const COVERED: nat := 32768  // blocks per bitmap block
  const DIRECT: nat := 956
  const INDIRECT: nat := 1024
  const MAX_DIR: nat := 957
  const MAX_NAME: nat := 254
  const MAX_FILE: nat := 4096 * (1024 + 956)

  datatype Block =
    | Raw(bytes: seq<bv8>)
    | Super(magic: string, version: nat, blocks: nat)
    | Bitmap(bits: seq<bv8>)
    | File(name: string, size: nat, indirect: nat, direct: seq<nat>)
    | Folder(name: string, parent: nat, contents: seq<nat>)
    | Indirect(ptrs: seq<nat>)

  type Disk = map<nat, Block>

  /** Blocks 2, 3, ..., nb + 1 hold the bitmap. */
  ghost predicate Bitmaps(disk: Disk, nb: nat) {
    forall p :: 0 <= p < nb ==> BitmapAt(disk, p)
  }

  predicate BitmapAt(disk: Disk, p: nat) {
    2 + p in disk && disk[2 + p].Bitmap? && |disk[2 + p].bits| == BLOCK
  }

  /** Bit k of byte y of bitmap block p. */
  predicate BitAt(disk: Disk, p: nat, y: nat, k: nat)
    requires k < 8
  {
    BitmapAt(disk, p) && y < BLOCK && Bit(disk[2 + p].bits[y], k)
  }

  /** The block that bit stands for. */
  function Number(p: nat, y: nat, k: nat): nat {
    p * COVERED + y * 8 + k
  }

  predicate IsFree(disk: Disk, nb: nat, b: nat) {
    b < nb * COVERED && BitAt(disk, b / COVERED, b % COVERED / 8, b % 8)
  }

  lemma NumberParts(p: nat, y: nat, k: nat)
    requires y < BLOCK && k < 8
    ensures var b := Number(p, y, k); b / COVERED == p && b % COVERED / 8 == y && b % 8 == k
  {}

  lemma PartsNumber(b: nat)
    ensures b % COVERED / 8 < BLOCK
    ensures b == Number(b / COVERED, b % COVERED / 8, b % 8)
  {}

  /** `free` is the set of blocks the bitmap marks as free. */
  ghost predicate Synced(disk: Disk, nb: nat, free: set<nat>) {
    forall b {:trigger IsFree(disk, nb, b)} :: b in free <==> IsFree(disk, nb, b)
  }

  /** The two disks differ at most in bitmap blocks. */
  ghost predicate SameButBitmaps(disk: Disk, disk': Disk, nb: nat) {
    disk'.Keys == disk.Keys && forall b :: b in disk && !(2 <= b < 2 + nb) ==> disk'[b] == disk[b]
  }

  /** The two disks have the same bitmap. */
  ghost predicate SameBitmaps(disk: Disk, disk': Disk, nb: nat) {
    forall p :: 2 <= p < 2 + nb ==> p in disk && p in disk' && disk'[p] == disk[p]
  }

  lemma SameBitmapsSynced(disk: Disk, disk': Disk, nb: nat, free: set<nat>)
    requires Bitmaps(disk, nb) && Synced(disk, nb, free) && SameBitmaps(disk, disk', nb)
    ensures Bitmaps(disk', nb) && Synced(disk', nb, free)
  {
    forall p | 0 <= p < nb ensures BitmapAt(disk', p) { assert BitmapAt(disk, p); }
    forall b: nat ensures IsFree(disk', nb, b) == IsFree(disk, nb, b) {
      if b < nb * COVERED { assert BitmapAt(disk, b / COVERED) && BitmapAt(disk', b / COVERED); }
    }
  }

  /** Rewriting the byte that holds block n, so that only the bit of n changes. */
  lemma OneBit(disk: Disk, nb: nat, free: set<nat>, n: nat, byte: bv8, free': set<nat>)
    requires Bitmaps(disk, nb) && Synced(disk, nb, free) && n < nb * COVERED
    requires BitmapAt(disk, n / COVERED)
    requires var was := disk[2 + n / COVERED].bits[n % COVERED / 8];
      forall k :: 0 <= k < 8 && k != n % 8 ==> (Bit(byte, k) <==> Bit(was, k))
    requires free' == if Bit(byte, n % 8) then free + {n} else free - {n}
    ensures var p := n / COVERED;
      var disk' := disk[2 + p := Bitmap(disk[2 + p].bits[n % COVERED / 8 := byte])];
      Bitmaps(disk', nb) && Synced(disk', nb, free')
  {
    var p := n / COVERED;
    var disk' := disk[2 + p := Bitmap(disk[2 + p].bits[n % COVERED / 8 := byte])];
    forall q | 0 <= q < nb ensures BitmapAt(disk', q) { assert BitmapAt(disk, q); }
    forall b: nat ensures b in free' <==> IsFree(disk', nb, b) {
      PartsNumber(b);
      PartsNumber(n);
      assert b in free <==> IsFree(disk, nb, b);
      if b < nb * COVERED { assert BitmapAt(disk, b / COVERED) && BitmapAt(disk', b / COVERED); }
    }
  }

  /** A write outside the bitmap leaves it alone. */
  lemma OtherWrite(disk: Disk, nb: nat, free: set<nat>, b: nat, block: Block)
    requires Bitmaps(disk, nb) && Synced(disk, nb, free) && !(2 <= b < 2 + nb)
    ensures Bitmaps(disk[b := block], nb) && Synced(disk[b := block], nb, free)
  {
    forall p | 2 <= p < 2 + nb ensures p in disk { assert BitmapAt(disk, p - 2); }
    SameBitmapsSynced(disk, disk[b := block], nb, free);
  }
}
