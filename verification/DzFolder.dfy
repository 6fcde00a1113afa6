/** Adding an entry to a folder and taking one out (kernel/src/fs/dzfs.c). */
module DzFolder {
  import opened DzDisk
  import opened DzState

  /** The entries of a content array in use. */
  ghost predicate Packed(s: seq<nat>) {
    forall i :: Count(s) <= i < |s| ==> s[i] == 0
  }

  lemma CountIs(s: seq<nat>, n: nat)
    requires n <= |s| && (forall i :: 0 <= i < n ==> s[i] != 0) && (n < |s| ==> s[n] == 0)
    ensures Count(s) == n
  {
    var c := Count(s);
    assert c < |s| ==> s[c] == 0;
    assert forall i :: 0 <= i < c ==> s[i] != 0;
  }

  /** What folder_remove_content leaves once it has found the entry at index k. */
  function RemoveAt(s: seq<nat>, k: nat): (r: seq<nat>)
    requires k < Count(s)
    ensures |r| == |s|
  {
    var last := Count(s) - 1;
    if last == 0 then s[0 := 0]
    else if last == k then s[last := 0]
    else s[k := s[last]][last := 0]
  }

  /** It removes exactly that entry, and the array stays packed. */
  lemma RemoveAtEffect(s: seq<nat>, k: nat)
    requires Packed(s) && k < Count(s)
    ensures var r := RemoveAt(s, k);
      && Packed(r) && Count(r) == Count(s) - 1
      && (forall i :: 0 <= i < Count(r) ==> r[i] == if i == k then s[Count(s) - 1] else s[i])
  {
    CountIs(RemoveAt(s, k), Count(s) - 1);
  }

  /** Adding an entry after the last one and removing it again changes nothing. */
  lemma AddRemove(s: seq<nat>, c: nat)
    requires Packed(s) && Count(s) < |s| && c != 0
    ensures var r := s[Count(s) := c]; Packed(r) && Count(r) == Count(s) + 1 && RemoveAt(r, Count(s)) == s
  {
    CountIs(s[Count(s) := c], Count(s) + 1);
  }

  // ------------------------------------------------- creating an entity

  /** v' is v after a new entity `block` got the free block r and the last place in
      folder p. */
  ghost predicate Created(v: Fs, v': Fs, p: nat, r: nat, block: Block) {
    && v.IsFolder(p) && r in v.free
    && var s := v.disk[p].contents;
    && Count(s) < |s|
    && v'.nb == v.nb && v'.total == v.total && v'.free == v.free - {r}
    && v'.own == v.own[r := Dnode] && v'.par == v.par[r := p]
    && v'.disk.Keys == v.disk.Keys
    && (forall b {:trigger v'.disk[b]} :: b in v.disk && b != p && b != r && !(2 <= b < v.Root()) ==>
        v'.disk[b] == v.disk[b])
    && p in v'.disk && v'.disk[p] == v.disk[p].(contents := s[Count(s) := r])
    && r in v'.disk && v'.disk[r] == block
    && Bitmaps(v'.disk, v.nb) && Synced(v'.disk, v.nb, v'.free)
  }

  /** A fresh entity: no blocks, no entries. */
  ghost predicate Fresh(block: Block, p: nat) {
    || (block.File? && block.size == 0 && block.indirect == 0 && |block.direct| == DIRECT
        && forall i :: 0 <= i < DIRECT ==> block.direct[i] == 0)
    || (block.Folder? && block.parent == p && |block.contents| == MAX_DIR
        && forall i :: 0 <= i < MAX_DIR ==> block.contents[i] == 0)
  }

  /** The dnode dzfs_open_relative writes for a new entity of folder p. */
  function Blank(name: string, dir: bool, p: nat): (block: Block)
    ensures Fresh(block, p) && NameOf(block) == name && (block.Folder? <==> dir)
  {
    if dir then Folder(name, p, seq(MAX_DIR, _ => 0)) else File(name, 0, 0, seq(DIRECT, _ => 0))
  }

  /** No entry of folder p has this name. */
  ghost predicate NewName(v: Fs, p: nat, name: string)
    requires v.IsFolder(p)
  {
    var s := v.disk[p].contents;
    forall i :: 0 <= i < Count(s) && s[i] in v.disk ==> NameOf(v.disk[s[i]]) != name
  }

  lemma CreatedParent(v: Fs, v': Fs, p: nat, r: nat, block: Block)
    requires v.Inv() && Created(v, v', p, r, block) && Fresh(block, p) && NewName(v, p, NameOf(block))
    ensures v'.FolderOk(p)
  {
    assert v.DnodeOk(p) && r !in v.own && r > v.Root();
    var s := v.disk[p].contents;
    var s' := s[Count(s) := r];
    CountIs(s', Count(s) + 1);
    forall i | 0 <= i < Count(s) ensures v'.ChildOk(p, s[i]) && s[i] != r && v'.disk[s[i]] == v.disk[s[i]] {
      assert v.ChildOk(p, s[i]);
      assert v.ListedOk(s[i]) by { assert v.DnodeOk(s[i]); }
    }
    assert v'.ChildOk(p, r);
  }

  lemma CreatedOther(v: Fs, v': Fs, p: nat, r: nat, block: Block, e: nat)
    requires v.Inv() && Created(v, v', p, r, block) && Fresh(block, p) && v.IsDnode(e) && e != p
    ensures v'.disk[e] == v.disk[e] && (v.disk[e].File? ==> v'.FileOk(e)) && (v.disk[e].Folder? ==> v'.FolderOk(e))
    ensures v.disk[e].File? ==> Shaped(MapOf(v.disk, e)) && MapOf(v'.disk, e) == MapOf(v.disk, e)
    ensures v.disk[e].File? ==> forall i, j :: 0 <= i < SLOTS && 0 <= j < BLOCK ==>
      ByteAt(v'.disk, MapOf(v.disk, e), i, j) == ByteAt(v.disk, MapOf(v.disk, e), i, j)
  {
    assert v.DnodeOk(e) && r !in v.own && v.own[p] == Dnode && v.Holds(0, Meta);
    assert v'.disk[e] == v.disk[e];
    if v.disk[e].File? {
      var m := MapOf(v.disk, e);
      forall i | 0 <= i < SLOTS ensures v'.SlotOk(m, e, i) && v'.disk[Slot(m, i)] == v.disk[Slot(m, i)] {
        assert v.SlotOk(m, e, i);
      }
      if m.indirect != 0 { assert v'.disk[m.indirect] == v.disk[m.indirect]; }
    } else {
      var s := v.disk[e].contents;
      forall i | 0 <= i < Count(s)
        ensures v'.ChildOk(e, s[i]) && NameOf(v'.disk[s[i]]) == NameOf(v.disk[s[i]])
      {
        assert v.ChildOk(e, s[i]);
        assert s[i] != p ==> v'.disk[s[i]] == v.disk[s[i]];
      }
    }
  }

  lemma CreatedKeeps(v: Fs, v': Fs, p: nat, r: nat, block: Block)
    requires v.Inv() && Created(v, v', p, r, block) && Fresh(block, p) && NewName(v, p, NameOf(block))
    ensures v'.Inv()
  {
    assert v.DnodeOk(p) && r !in v.own && r > v.Root();
    CreatedParent(v, v', p, r, block);
    assert v.IsFolder(v.Root());
    LayoutKeeps(v, v');
    forall e | v'.IsDnode(e) ensures v'.DnodeOk(e) {
      if e == r {
        CreatedFresh(v, v', p, r, block);
      } else {
        assert v.DnodeOk(e);
        if e != p { CreatedOther(v, v', p, r, block, e); }
        CreatedListed(v, v', p, r, block, e);
      }
    }
  }

  lemma CreatedListed(v: Fs, v': Fs, p: nat, r: nat, block: Block, e: nat)
    requires v.Inv() && Created(v, v', p, r, block) && Fresh(block, p) && v.IsDnode(e)
    ensures v'.ListedOk(e)
  {
    assert v.DnodeOk(e) && r !in v.own;
    if e != v.Root() {
      var q := v.par[e];
      assert v.DnodeOk(q);
      var s := v.disk[q].contents;
      var i :| 0 <= i < |s| && s[i] == e;
      assert e != 0 by { assert v.Holds(0, Meta); }
      assert i < Count(s);
      assert q != p ==> v'.disk[q] == v.disk[q];
      assert v'.disk[q].contents[i] == e;
    }
  }

  lemma CreatedFresh(v: Fs, v': Fs, p: nat, r: nat, block: Block)
    requires v.Inv() && Created(v, v', p, r, block) && Fresh(block, p)
    ensures v'.DnodeOk(r)
  {
    assert v.DnodeOk(p) && r !in v.own && r > v.Root();
    assert v'.disk[p].contents[Count(v.disk[p].contents)] == r;
    if block.File? {
      var m := MapOf(v'.disk, r);
      forall i | 0 <= i < SLOTS ensures v'.SlotOk(m, r, i) { assert Slot(m, i) == 0; }
    } else {
      CountIs(block.contents, 0);
    }
  }

  // ------------------------------------------------- deleting an entity

  /** Block b belongs to the entity d. */
  predicate PartOf(v: Fs, b: nat, d: nat)
    requires b in v.own
  {
    b == d || (v.own[b].Ind? && v.own[b].d == d) || (v.own[b].Data? && v.own[b].d == d)
  }

  /** v' is v without the entity d, which was entry k of folder p; the blocks `freed`,
      all of them parts of d, went back to the bitmap. */
  ghost predicate Removed(v: Fs, v': Fs, d: nat, p: nat, k: nat, freed: set<nat>) {
    && v.IsDnode(d) && d != v.Root() && v.IsFolder(p) && p != d && d in v.par && v.par[d] == p
    && k < Count(v.disk[p].contents) && v.disk[p].contents[k] == d
    && (v.IsFolder(d) ==> Count(v.disk[d].contents) == 0)
    && (forall b :: b in freed ==> b in v.own && PartOf(v, b, d))
    && v'.nb == v.nb && v'.total == v.total && v'.free == v.free + freed
    && v'.own == (map b | b in v.own && !PartOf(v, b, d) :: v.own[b]) && v'.par == v.par - {d}
    && v'.disk.Keys == v.disk.Keys
    && (forall b {:trigger v'.disk[b]} :: b in v.disk && b != p && !(2 <= b < v.Root()) ==> v'.disk[b] == v.disk[b])
    && p in v'.disk && v'.disk[p] == v.disk[p].(contents := RemoveAt(v.disk[p].contents, k))
    && Bitmaps(v'.disk, v.nb) && Synced(v'.disk, v.nb, v'.free)
  }

  /** A dnode is not part of another entity. */
  lemma DnodeStays(v: Fs, v': Fs, d: nat, p: nat, k: nat, freed: set<nat>, e: nat)
    requires v.Inv() && Removed(v, v', d, p, k, freed) && v.IsDnode(e) && e != d
    ensures v'.IsDnode(e) && (e != p ==> v'.disk[e] == v.disk[e])
    ensures NameOf(v'.disk[e]) == NameOf(v.disk[e])
  {
    assert v.DnodeOk(e);
  }

  /** Two entries that stay have different names still. */
  lemma StillApart(v: Fs, v': Fs, s: seq<nat>, p: nat, k: nat, i: nat, j: nat)
    requires i < Count(s) && j < Count(s) && i != j && i != k && j != k && v.Siblings(s, Count(s))
    requires forall a, b :: 0 <= a < b < Count(s) ==> s[a] != s[b]
    requires s[i] in v.disk && s[i] in v'.disk && NameOf(v'.disk[s[i]]) == NameOf(v.disk[s[i]])
    requires s[j] in v.disk && s[j] in v'.disk && NameOf(v'.disk[s[j]]) == NameOf(v.disk[s[j]])
    ensures s[i] != s[j] && NameOf(v'.disk[s[i]]) != NameOf(v'.disk[s[j]])
  {
    assert i < j ==> s[i] != s[j];
    assert j < i ==> s[j] != s[i];
  }

  /** The entries that stay are children of p as before. */
  lemma KeptChild(v: Fs, v': Fs, d: nat, p: nat, k: nat, freed: set<nat>, i: nat)
    requires v.Inv() && Removed(v, v', d, p, k, freed) && i < Count(v.disk[p].contents) && i != k
    ensures var c := v.disk[p].contents[i];
      v'.ChildOk(p, c) && c in v.disk && c in v'.disk && NameOf(v'.disk[c]) == NameOf(v.disk[c])
  {
    assert v.DnodeOk(p);
    var s := v.disk[p].contents;
    assert v.ChildOk(p, s[i]) && s[i] != s[k];
    DnodeStays(v, v', d, p, k, freed, s[i]);
  }

  lemma RemovedParent(v: Fs, v': Fs, d: nat, p: nat, k: nat, freed: set<nat>)
    requires v.Inv() && Removed(v, v', d, p, k, freed)
    ensures v'.FolderOk(p)
  {
    assert v.DnodeOk(p);
    var s := v.disk[p].contents;
    RemoveAtEffect(s, k);
    var r := RemoveAt(s, k);
    forall i: nat | i < Count(r) ensures v'.ChildOk(p, r[i]) {
      KeptChild(v, v', d, p, k, freed, if i == k then Count(s) - 1 else i);
    }
    forall i: nat, j: nat | i < j < Count(r) ensures r[i] != r[j] && NamesDiffer(v', r[i], r[j]) {
      RemovedPair(v, v', d, p, k, freed, i, j);
    }
    assert v'.Siblings(r, Count(r));
    assert p == v.Root() || (p in v.par && v.par[p] == v'.par[p]);
  }

  ghost predicate NamesDiffer(v: Fs, a: nat, b: nat) {
    a in v.disk && b in v.disk ==> NameOf(v.disk[a]) != NameOf(v.disk[b])
  }

  lemma RemovedPair(v: Fs, v': Fs, d: nat, p: nat, k: nat, freed: set<nat>, i: nat, j: nat)
    requires v.Inv() && Removed(v, v', d, p, k, freed) && i < j < Count(RemoveAt(v.disk[p].contents, k))
    ensures var r := RemoveAt(v.disk[p].contents, k); r[i] != r[j] && NamesDiffer(v', r[i], r[j])
  {
    assert v.DnodeOk(p);
    var s := v.disk[p].contents;
    RemoveAtEffect(s, k);
    var i', j' := if i == k then Count(s) - 1 else i, if j == k then Count(s) - 1 else j;
    KeptChild(v, v', d, p, k, freed, i');
    KeptChild(v, v', d, p, k, freed, j');
    StillApart(v, v', s, p, k, i', j');
  }

  lemma RemovedOther(v: Fs, v': Fs, d: nat, p: nat, k: nat, freed: set<nat>, e: nat)
    requires v.Inv() && Removed(v, v', d, p, k, freed) && v.IsDnode(e) && e != d && e != p
    ensures v'.disk[e] == v.disk[e] && (v.disk[e].File? ==> v'.FileOk(e)) && (v.disk[e].Folder? ==> v'.FolderOk(e))
    ensures v.disk[e].File? ==> Shaped(MapOf(v.disk, e)) && MapOf(v'.disk, e) == MapOf(v.disk, e)
    ensures v.disk[e].File? ==> forall i, j :: 0 <= i < SLOTS && 0 <= j < BLOCK ==>
      ByteAt(v'.disk, MapOf(v.disk, e), i, j) == ByteAt(v.disk, MapOf(v.disk, e), i, j)
  {
    DnodeStays(v, v', d, p, k, freed, e);
    assert v.DnodeOk(e) && v.Holds(0, Meta);
    if v.disk[e].File? {
      var m := MapOf(v.disk, e);
      forall i | 0 <= i < SLOTS ensures v'.SlotOk(m, e, i) && v'.disk[Slot(m, i)] == v.disk[Slot(m, i)] {
        assert v.SlotOk(m, e, i);
      }
      if m.indirect != 0 { assert v'.disk[m.indirect] == v.disk[m.indirect]; }
    } else {
      var s := v.disk[e].contents;
      forall i | 0 <= i < Count(s) ensures v'.ChildOk(e, s[i]) && NameOf(v'.disk[s[i]]) == NameOf(v.disk[s[i]]) {
        assert v.ChildOk(e, s[i]);
        DnodeStays(v, v', d, p, k, freed, s[i]);
      }
    }
  }

  lemma RemovedListed(v: Fs, v': Fs, d: nat, p: nat, k: nat, freed: set<nat>, e: nat)
    requires v.Inv() && Removed(v, v', d, p, k, freed) && v.IsDnode(e) && e != d
    ensures v'.ListedOk(e)
  {
    assert v.DnodeOk(e);
    if e != v.Root() {
      var q := v.par[e];
      assert v.DnodeOk(q) && v.Holds(0, Meta);
      var s := v.disk[q].contents;
      var i :| 0 <= i < |s| && s[i] == e;
      assert i < Count(s);
      DnodeStays(v, v', d, p, k, freed, q);
      if q == p {
        RemoveAtEffect(s, k);
        var j := if i == Count(s) - 1 then k else i;
        assert v'.disk[p].contents[j] == e;
      }
    }
  }

  lemma RemovedKeeps(v: Fs, v': Fs, d: nat, p: nat, k: nat, freed: set<nat>)
    requires v.Inv() && Removed(v, v', d, p, k, freed)
    ensures v'.Inv()
  {
    RemovedParent(v, v', d, p, k, freed);
    assert v.DnodeOk(d) && v.IsFolder(v.Root());
    DnodeStays(v, v', d, p, k, freed, v.Root());
    LayoutKeeps(v, v');
    assert v'.FreeApart() by {
      forall b | b in v'.free ensures b !in v'.own && v.Root() < b < v.total {}
    }
    forall e | v'.IsDnode(e) ensures v'.DnodeOk(e) {
      assert v.IsDnode(e) && e != d && v.DnodeOk(e);
      if e != p { RemovedOther(v, v', d, p, k, freed, e); }
      RemovedListed(v, v', d, p, k, freed, e);
    }
  }
}
