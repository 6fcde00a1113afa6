/** Who owns which disk block of dzFS, and what a file's bytes are.

    `own` gives every block in use its one role: metadata, a dnode, the indirect
    block of file d, or data block number i of file d.  As `own` is a function, a
    disk on which every pointer leads to a block with the matching role has no block
    in two places. */
module DzState {
  import opened DzDisk

  datatype Role = Meta | Dnode | Ind(d: nat) | Data(d: nat, i: nat)

  /** The block pointers of a file: the arrays of its dnode and of its indirect
      block, whether on disk or in the buffers of dzfs_write. */
  datatype Map = Map(direct: seq<nat>, indirect: nat, ptrs: seq<nat>)

  const SLOTS: nat := 1980  // DIRECT + INDIRECT

  predicate Shaped(m: Map) {
    |m.direct| == DIRECT && |m.ptrs| == INDIRECT
  }

  /** Disk block of data block i, or 0. */
  function Slot(m: Map, i: nat): (b: nat)
    requires Shaped(m) && i < SLOTS
  {
    if i < DIRECT then m.direct[i] else m.ptrs[i - DIRECT]
  }

  function NoPtrs(): (s: seq<nat>)
    ensures |s| == INDIRECT && forall i :: 0 <= i < INDIRECT ==> s[i] == 0
  {
    seq(INDIRECT, _ => 0)
  }

  /** The pointers of the file dnode d as they are on disk. */
  function MapOf(disk: Disk, d: nat): (m: Map)
    requires d in disk && disk[d].File?
  {
    var f := disk[d];
    Map(f.direct, f.indirect,
        if f.indirect != 0 && f.indirect in disk && disk[f.indirect].Indirect?
        then disk[f.indirect].ptrs else NoPtrs())
  }

  predicate IsRaw(disk: Disk, b: nat) {
    b in disk && disk[b].Raw? && |disk[b].bytes| == BLOCK
  }

  /** Byte j of data block i of the file with pointers m. */
  function ByteAt(disk: Disk, m: Map, i: nat, j: nat): (x: bv8)
    requires Shaped(m) && i < SLOTS && j < BLOCK
  {
    if IsRaw(disk, Slot(m, i)) then disk[Slot(m, i)].bytes[j] else 0
  }

  function NameOf(b: Block): string {
    if b.File? || b.Folder? then b.name else ""
  }

  /** folder_content_count */
  function Count(contents: seq<nat>): (n: nat)
    ensures n <= |contents|
    ensures forall i :: 0 <= i < n ==> contents[i] != 0
    ensures n < |contents| ==> contents[n] == 0
  {
    if |contents| == 0 || contents[0] == 0 then 0 else 1 + Count(contents[1..])
  }

  datatype Fs = Fs(disk: Disk, nb: nat, total: nat, free: set<nat>, own: map<nat, Role>, par: map<nat, nat>)
  {
    function Root(): nat { 2 + nb }

    predicate Holds(b: nat, role: Role) { b in own && own[b] == role }

    predicate IsDnode(d: nat) { Holds(d, Dnode) }

    predicate IsFile(d: nat) { IsDnode(d) && d in disk && disk[d].File? }

    predicate IsFolder(d: nat) { IsDnode(d) && d in disk && disk[d].Folder? }

    /** Bootloader, superblock and bitmap, then the root folder, then the rest. */
    ghost predicate Layout() {
      && nb >= 1 && 2 + nb < total <= nb * COVERED
      && Bitmaps(disk, nb) && Synced(disk, nb, free)
      && (forall b :: 0 <= b < total ==> b in disk)
      && (forall b :: 0 <= b < 2 + nb ==> Holds(b, Meta))
      && (forall b :: b in own ==> b < total && (b < 2 + nb ==> own[b] == Meta))
      && IsFolder(Root())
    }

    /** Nothing is both free and in use. */
    ghost predicate FreeApart() {
      forall b :: b in free ==> b !in own && Root() < b < total
    }

    ghost predicate SlotOk(m: Map, d: nat, i: nat)
      requires Shaped(m) && i < SLOTS
    {
      Slot(m, i) != 0 ==> Holds(Slot(m, i), Data(d, i)) && IsRaw(disk, Slot(m, i))
    }

    ghost predicate MapOk(m: Map, d: nat) {
      && Shaped(m)
      && (m.indirect != 0 ==> Holds(m.indirect, Ind(d)))
      && (forall i {:trigger SlotOk(m, d, i)} :: 0 <= i < SLOTS ==> SlotOk(m, d, i))
    }

    ghost predicate FileOk(d: nat)
      requires d in disk && disk[d].File?
    {
      && MapOk(MapOf(disk, d), d)
      && (disk[d].indirect != 0 ==>
            disk[d].indirect in disk && disk[disk[d].indirect].Indirect?)
    }

    ghost predicate ChildOk(d: nat, c: nat) {
      c != Root() && IsDnode(c) && c in disk && c in par && par[c] == d
    }

    ghost predicate FolderOk(d: nat)
      requires d in disk && disk[d].Folder?
    {
      var s := disk[d].contents;
      && |s| == MAX_DIR
      && (forall i :: Count(s) <= i < MAX_DIR ==> s[i] == 0)
      && (forall i :: 0 <= i < Count(s) ==> ChildOk(d, s[i]))
      && (forall i, j :: 0 <= i < j < Count(s) ==> s[i] != s[j])
      && Siblings(s, Count(s))
      && disk[d].parent == if d == Root() then d else if d in par then par[d] else 0
    }

    /** The first n entries have different names. */
    ghost predicate Siblings(s: seq<nat>, n: nat) {
      forall i, j :: 0 <= i < j < n && j < |s| && s[i] in disk && s[j] in disk ==>
        NameOf(disk[s[i]]) != NameOf(disk[s[j]])
    }

    /** A dnode other than the root is listed in its parent folder. */
    ghost predicate ListedOk(d: nat) {
      d != Root() ==> d in par && par[d] != d && IsFolder(par[d]) && d in disk[par[d]].contents
    }

    ghost predicate DnodeOk(d: nat) {
      && d in disk && (disk[d].File? || disk[d].Folder?)
      && (disk[d].File? ==> FileOk(d))
      && (disk[d].Folder? ==> FolderOk(d))
      && ListedOk(d)
    }

    ghost predicate Inv() {
      && Layout() && FreeApart()
      && forall d {:trigger DnodeOk(d)} :: IsDnode(d) ==> DnodeOk(d)
    }
  }

  // ------------------------------------------------- no block has two uses

  /** Two pointers to the same block are the same pointer. */
  lemma NoSharedBlock(v: Fs, d: nat, i: nat, e: nat, j: nat)
    requires v.Inv() && v.IsFile(d) && v.IsFile(e) && i < SLOTS && j < SLOTS
    ensures Shaped(MapOf(v.disk, d)) && Shaped(MapOf(v.disk, e))
    ensures Slot(MapOf(v.disk, d), i) != 0 && Slot(MapOf(v.disk, d), i) == Slot(MapOf(v.disk, e), j) ==>
      d == e && i == j
    ensures Slot(MapOf(v.disk, d), i) != 0 ==>
      var b := Slot(MapOf(v.disk, d), i); b !in v.free && b != v.disk[e].indirect && !v.IsDnode(b) && b > v.Root()
    ensures v.disk[d].indirect != 0 ==>
      var b := v.disk[d].indirect;
      b !in v.free && !v.IsDnode(b) && b > v.Root() && (b == v.disk[e].indirect ==> d == e)
  {
    assert v.DnodeOk(d) && v.DnodeOk(e);
    assert v.SlotOk(MapOf(v.disk, d), d, i) && v.SlotOk(MapOf(v.disk, e), e, j);
  }

  // ------------------------------------------------- changes to one file

  /** Block b is part of file d, or of the bitmap. */
  predicate Concerns(v: Fs, b: nat, d: nat)
    requires b in v.own
  {
    b == d || (v.own[b].Ind? && v.own[b].d == d) || (v.own[b].Data? && v.own[b].d == d) || 2 <= b < v.Root()
  }

  /** v' differs from v only in what file d owns and in blocks free in v. */
  ghost predicate Only(v: Fs, v': Fs, d: nat) {
    && v'.nb == v.nb && v'.total == v.total && v'.par == v.par
    && v'.disk.Keys == v.disk.Keys && v'.free <= v.free
    && (forall b :: b in v.own ==> v'.Holds(b, v.own[b])) && (forall b :: v'.IsDnode(b) ==> v.IsDnode(b))
    && (forall b {:trigger v.own[b]} :: b in v.own && !Concerns(v, b, d) ==> b in v.disk && v'.disk[b] == v.disk[b])
    && d in v.disk && v.disk[d].File? && v'.disk[d].File? && v'.disk[d].name == v.disk[d].name
  }

  /** Then every other dnode is as good as before, ... */
  lemma OnlyKeeps(v: Fs, v': Fs, d: nat, e: nat)
    requires v.Inv() && Only(v, v', d) && v.IsFile(d) && v.IsDnode(e) && e != d
    ensures v'.DnodeOk(e)
  {
    assert v.DnodeOk(e) && v.own[e] == Dnode;
    assert v'.disk[e] == v.disk[e];
    if v.disk[e].File? {
      OnlyKeepsFile(v, v', d, e);
    } else {
      OnlyKeepsFolder(v, v', d, e);
    }
  }

  lemma OnlyKeepsFolder(v: Fs, v': Fs, d: nat, e: nat)
    requires v.Inv() && Only(v, v', d) && v.IsFile(d) && v.IsFolder(e)
    requires v'.disk[e] == v.disk[e]
    ensures v'.FolderOk(e)
  {
    assert v.DnodeOk(e);
    var s := v.disk[e].contents;
    forall i | 0 <= i < Count(s) ensures v'.ChildOk(e, s[i]) && NameOf(v'.disk[s[i]]) == NameOf(v.disk[s[i]]) {
      assert v.ChildOk(e, s[i]) && v.own[s[i]] == Dnode;
    }
  }

  /** ... and every other file has the same blocks and bytes. */
  lemma OnlyKeepsFile(v: Fs, v': Fs, d: nat, e: nat)
    requires v.Inv() && Only(v, v', d) && v.IsFile(d) && v.IsFile(e) && e != d
    ensures v'.disk[e] == v.disk[e] && v'.FileOk(e) && MapOf(v'.disk, e) == MapOf(v.disk, e)
    ensures Shaped(MapOf(v.disk, e))
    ensures forall i, j :: 0 <= i < SLOTS && 0 <= j < BLOCK ==>
      ByteAt(v'.disk, MapOf(v.disk, e), i, j) == ByteAt(v.disk, MapOf(v.disk, e), i, j)
  {
    var m := MapOf(v.disk, e);
    assert v.DnodeOk(e) && v.own[e] == Dnode;
    if m.indirect != 0 { assert v.own[m.indirect] == Ind(e); }
    forall i | 0 <= i < SLOTS
      ensures v'.SlotOk(m, e, i) && (Slot(m, i) != 0 ==> v'.disk[Slot(m, i)] == v.disk[Slot(m, i)])
    {
      assert v.SlotOk(m, e, i);
      if Slot(m, i) != 0 { assert v.own[Slot(m, i)] == Data(e, i); }
    }
    assert v.Holds(0, Meta);
  }

  // ------------------------------------------------- taking and giving blocks

  /** v' has the same blocks with the same roles as v, and possibly more of them;
      only bitmap blocks were written. */
  ghost predicate Roomier(v: Fs, v': Fs) {
    && v'.nb == v.nb && v'.total == v.total && v'.par == v.par
    && SameButBitmaps(v.disk, v'.disk, v.nb)
    && (forall b :: b in v.own ==> v'.Holds(b, v.own[b]))
    && (forall b :: b in v'.own && b !in v.own ==> v'.own[b].Ind? || v'.own[b].Data?)
  }

  lemma RoomierKeeps(v: Fs, v': Fs, d: nat)
    requires v.Inv() && Roomier(v, v') && v.IsDnode(d)
    ensures v'.DnodeOk(d)
    ensures v'.disk[d] == v.disk[d] && (v.disk[d].File? ==> MapOf(v'.disk, d) == MapOf(v.disk, d))
  {
    assert v.DnodeOk(d);
    if v.disk[d].File? {
      var m := MapOf(v.disk, d);
      RoomierMap(v, v', m, d);
    } else {
      var s := v.disk[d].contents;
      forall i | 0 <= i < Count(s) ensures v'.ChildOk(d, s[i]) && v'.disk[s[i]] == v.disk[s[i]] {
        assert v.ChildOk(d, s[i]);
      }
    }
  }

  lemma RoomierMap(v: Fs, v': Fs, m: Map, d: nat)
    requires v.Inv() && Roomier(v, v') && v.MapOk(m, d)
    ensures v'.MapOk(m, d)
    ensures forall i, j :: 0 <= i < SLOTS && 0 <= j < BLOCK ==> ByteAt(v'.disk, m, i, j) == ByteAt(v.disk, m, i, j)
  {
    forall i | 0 <= i < SLOTS ensures v'.SlotOk(m, d, i) && v'.disk[Slot(m, i)] == v.disk[Slot(m, i)] {
      assert v.SlotOk(m, d, i);
    }
  }

  lemma LayoutKeeps(v: Fs, v': Fs)
    requires v.Layout() && v'.nb == v.nb && v'.total == v.total && v'.disk.Keys == v.disk.Keys
    requires Bitmaps(v'.disk, v.nb) && Synced(v'.disk, v.nb, v'.free)
    requires forall b :: b in v.own && v.own[b] == Meta ==> v'.Holds(b, Meta)
    requires forall b :: b in v'.own ==> v.Root() <= b < v.total || v.Holds(b, v'.own[b])
    requires v'.IsFolder(v.Root())
    ensures v'.Layout()
  {
    forall b | 0 <= b < 2 + v.nb ensures v'.Holds(b, Meta) { assert v.Holds(b, Meta); }
    assert v'.Root() == v.Root();
  }

  /** Taking the free block r for file d. */
  lemma TakeKeeps(v: Fs, v': Fs, r: nat, d: nat, role: Role)
    requires v.Inv() && v.IsFile(d) && r in v.free && (role == Ind(d) || (role.Data? && role.d == d))
    requires SameButBitmaps(v.disk, v'.disk, v.nb) && Bitmaps(v'.disk, v.nb) && Synced(v'.disk, v.nb, v'.free)
    requires v'.nb == v.nb && v'.total == v.total && v'.par == v.par
    requires v'.free == v.free - {r} && v'.own == v.own[r := role]
    ensures v'.Inv() && Roomier(v, v') && Only(v, v', d)
  {
    assert r !in v.own;
    assert v.DnodeOk(d);
    LayoutKeeps(v, v');
    assert v'.FreeApart();
    forall e | v'.IsDnode(e) ensures v'.DnodeOk(e) { RoomierKeeps(v, v', e); }
  }

  lemma OnlyTransitive(u: Fs, v: Fs, w: Fs, d: nat)
    requires Only(u, v, d) && Only(v, w, d)
    ensures Only(u, w, d)
  {
    forall b | b in u.own ensures w.Holds(b, u.own[b]) { assert v.Holds(b, u.own[b]); }
    forall b | b in u.own && !Concerns(u, b, d) ensures b in u.disk && w.disk[b] == u.disk[b] {
      assert v.Holds(b, u.own[b]) && v.own[b] == u.own[b];
    }
  }

  // ------------------------------------------------- the blocks of one file

  /** All blocks m points to. */
  function Blocks(m: Map): (s: set<nat>)
    requires Shaped(m)
  {
    (set i | 0 <= i < SLOTS && Slot(m, i) != 0 :: Slot(m, i)) + (if m.indirect != 0 then {m.indirect} else {})
  }

  lemma BlocksOwned(v: Fs, m: Map, d: nat)
    requires v.Inv() && v.MapOk(m, d)
    ensures forall b :: b in Blocks(m) ==> b in v.own && b !in v.free
  {
    forall b | b in Blocks(m) ensures b in v.own {
      if b != m.indirect {
        var i :| 0 <= i < SLOTS && Slot(m, i) == b;
        assert v.SlotOk(m, d, i);
      }
    }
  }

  /** m with data block i at disk block b. */
  function SetSlot(m: Map, i: nat, b: nat): (m': Map)
    requires Shaped(m) && i < SLOTS
    ensures Shaped(m') && m'.indirect == m.indirect
    ensures forall k :: 0 <= k < SLOTS ==> Slot(m', k) == if k == i then b else Slot(m, k)
  {
    if i < DIRECT then m.(direct := m.direct[i := b]) else m.(ptrs := m.ptrs[i - DIRECT := b])
  }

  lemma SetSlotBlocks(m: Map, i: nat, b: nat)
    requires Shaped(m) && i < SLOTS && b != 0 && Slot(m, i) == 0
    ensures Blocks(SetSlot(m, i, b)) == Blocks(m) + {b}
  {
    var m' := SetSlot(m, i, b);
    assert Slot(m', i) == b;
    forall x ensures x in Blocks(m') <==> x in Blocks(m) + {b} {
      if x in Blocks(m) && x != m.indirect {
        var k :| 0 <= k < SLOTS && Slot(m, k) != 0 && Slot(m, k) == x;
        assert Slot(m', k) == x;
      }
    }
  }

  lemma SetIndirectBlocks(m: Map, r: nat)
    requires Shaped(m) && m.indirect == 0 && r != 0
    ensures Blocks(m.(indirect := r)) == Blocks(m) + {r}
  {
    var m' := m.(indirect := r);
    assert forall k :: 0 <= k < SLOTS ==> Slot(m', k) == Slot(m, k);
  }

  /** Writing 4096 bytes to the block that is, or is to be, data block i of file d. */
  lemma PutKeeps(v: Fs, b: nat, d: nat, i: nat, bytes: seq<bv8>)
    requires v.Inv() && v.IsFile(d) && v.Holds(b, Data(d, i)) && |bytes| == BLOCK
    ensures var v' := v.(disk := v.disk[b := Raw(bytes)]); v'.Inv() && Only(v, v', d)
  {
    var v' := v.(disk := v.disk[b := Raw(bytes)]);
    assert v.DnodeOk(d) && b >= v.Root() && b < v.total;
    assert SameBitmaps(v.disk, v'.disk, v.nb) by {
      forall p | 2 <= p < 2 + v.nb ensures p in v.disk && v'.disk[p] == v.disk[p] { assert BitmapAt(v.disk, p - 2); }
    }
    SameBitmapsSynced(v.disk, v'.disk, v.nb, v.free);
    LayoutKeeps(v, v');
    var m := MapOf(v.disk, d);
    forall k | 0 <= k < SLOTS ensures v'.SlotOk(m, d, k) { assert v.SlotOk(m, d, k); }
    forall e | v'.IsDnode(e) ensures v'.DnodeOk(e) {
      assert v.DnodeOk(e);
      if e != d { OnlyKeeps(v, v', d, e); }
    }
  }
}
