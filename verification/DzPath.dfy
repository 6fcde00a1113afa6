/** Paths of dzFS and what they lead to (kernel/src/fs/dzfs.c). */
module DzPath {
  import opened Prelude
  import opened DzDisk
  import opened DzState
  import opened DzFolder

  // ------------------------------------------------- splitting a path

  /** path_next_part_len */
  function PartLen(path: string): (n: nat)
    ensures n <= |path| && (forall i :: 0 <= i < n ==> path[i] != '/') && (n < |path| ==> path[n] == '/')
  {
    if path == "" || path[0] == '/' then 0 else 1 + PartLen(path[1..])
  }

  /** The components of a path; a slash at the end adds none. */
  function Parts(path: string): (ps: seq<string>)
    decreases |path|
  {
    if path == "" then []
    else if PartLen(path) == |path| then [path]
    else [path[..PartLen(path)]] + Parts(path[PartLen(path) + 1..])
  }

  /** path_last_part */
  predicate LastPart(path: string) {
    PartLen(path) == |path| || PartLen(path) + 1 == |path|
  }

  lemma LastPartParts(path: string)
    requires path != ""
    ensures |Parts(path)| >= 1 && Parts(path)[0] == path[..PartLen(path)]
    ensures LastPart(path) <==> |Parts(path)| == 1
    ensures !LastPart(path) ==> Parts(path)[1..] == Parts(path[PartLen(path) + 1..])
  {
    assert path[..|path|] == path;
    if !LastPart(path) { assert path[PartLen(path) + 1..] != ""; }
  }

  /** Components dzFS can store: not empty and at most 254 characters. */
  predicate GoodParts(ps: seq<string>) {
    forall i :: 0 <= i < |ps| ==> 1 <= |ps[i]| <= MAX_NAME
  }

  predicate Starts(path: string, pre: string) {
    pre <= path
  }

  /** The path without its leading ./ and ../ steps. */
  function Strip(path: string): (r: string)
    decreases |path|
  {
    if Starts(path, "./") then Strip(path[2..])
    else if Starts(path, "../") then Strip(path[3..])
    else if path == ".." then ""
    else path
  }

  /** The folder those steps lead to from folder d. */
  function Climb(disk: Disk, d: nat, path: string): (e: nat)
    decreases |path|
  {
    if Starts(path, "./") then Climb(disk, d, path[2..])
    else if Starts(path, "../") then Climb(disk, Above(disk, d), path[3..])
    else if path == ".." then Above(disk, d)
    else d
  }

  function Above(disk: Disk, d: nat): nat {
    if d in disk && disk[d].Folder? && disk[d].parent != 0 then disk[d].parent else d
  }

  // ------------------------------------------------- searching a folder

  /** The first entry before the end of the list with this name, or 0. */
  function Find(disk: Disk, s: seq<nat>, name: string): (c: nat) {
    if |s| == 0 || s[0] == 0 then 0
    else if s[0] in disk && NameOf(disk[s[0]]) == name then s[0]
    else Find(disk, s[1..], name)
  }

  lemma FindNone(disk: Disk, s: seq<nat>, name: string)
    requires forall i :: 0 <= i < Count(s) && s[i] in disk ==> NameOf(disk[s[i]]) != name
    ensures Find(disk, s, name) == 0
  {
    if |s| > 0 && s[0] != 0 {
      forall i | 0 <= i < Count(s[1..]) && s[1..][i] in disk ensures NameOf(disk[s[1..][i]]) != name {
        assert s[1..][i] == s[i + 1];
      }
      FindNone(disk, s[1..], name);
    }
  }

  lemma FindAt(disk: Disk, s: seq<nat>, name: string, k: nat)
    requires k < Count(s) && s[k] in disk && NameOf(disk[s[k]]) == name
    requires forall i :: 0 <= i < k && s[i] in disk ==> NameOf(disk[s[i]]) != name
    ensures Find(disk, s, name) == s[k]
  {
    if k > 0 {
      forall i | 0 <= i < k - 1 && s[1..][i] in disk ensures NameOf(disk[s[1..][i]]) != name {
        assert s[1..][i] == s[i + 1];
      }
      FindAt(disk, s[1..], name, k - 1);
    }
  }

  lemma FindSound(disk: Disk, s: seq<nat>, name: string) returns (k: nat)
    requires Find(disk, s, name) != 0
    ensures k < Count(s) && s[k] == Find(disk, s, name) && s[k] in disk && NameOf(disk[s[k]]) == name
    ensures forall i :: 0 <= i < k && s[i] in disk ==> NameOf(disk[s[i]]) != name
  {
    if s[0] in disk && NameOf(disk[s[0]]) == name {
      k := 0;
    } else {
      var j := FindSound(disk, s[1..], name);
      k := j + 1;
      forall i | 0 <= i < k && s[i] in disk ensures NameOf(disk[s[i]]) != name {
        if i > 0 { assert s[i] == s[1..][i - 1]; }
      }
    }
  }

  /** The entity called `name` in folder d. */
  function Child(disk: Disk, d: nat, name: string): (c: Option<nat>) {
    if d in disk && disk[d].Folder? && Find(disk, disk[d].contents, name) != 0
    then Some(Find(disk, disk[d].contents, name)) else None
  }

  /** The entity the components lead to from folder d. */
  function Reach(disk: Disk, d: nat, ps: seq<string>): (c: Option<nat>) {
    if ps == [] then Some(d) else
    match Reach(disk, d, ps[..|ps| - 1])
    case None => None
    case Some(e) => Child(disk, e, ps[|ps| - 1])
  }

  lemma ReachStep(disk: Disk, d: nat, ps: seq<string>, i: nat)
    requires i < |ps|
    ensures Reach(disk, d, ps[..i + 1]) ==
      match Reach(disk, d, ps[..i]) { case None => None case Some(e) => Child(disk, e, ps[i]) }
  {
    assert ps[..i + 1][..i] == ps[..i];
  }

  /** Once a component is missing, so is everything below it. */
  lemma ReachStuck(disk: Disk, d: nat, ps: seq<string>, i: nat)
    requires i <= |ps| && Reach(disk, d, ps[..i]).None?
    ensures Reach(disk, d, ps).None?
    decreases |ps| - i
  {
    if i == |ps| {
      assert ps[..i] == ps;
    } else {
      ReachStep(disk, d, ps, i);
      ReachStuck(disk, d, ps, i + 1);
    }
  }

  // ------------------------------------------------- one path per entity

  /** A child of a folder is a dnode that knows its parent and has the name. */
  lemma ChildKnows(v: Fs, d: nat, name: string)
    requires v.Inv() && v.IsFolder(d) && Child(v.disk, d, name).Some?
    ensures var c := Child(v.disk, d, name).value;
      v.IsDnode(c) && c in v.disk && c != v.Root() && c in v.par && v.par[c] == d && NameOf(v.disk[c]) == name
  {
    assert v.DnodeOk(d);
    var k := FindSound(v.disk, v.disk[d].contents, name);
    assert v.ChildOk(d, v.disk[d].contents[k]);
  }

  lemma ReachDnode(v: Fs, ps: seq<string>)
    requires v.Inv() && Reach(v.disk, v.Root(), ps).Some?
    ensures var c := Reach(v.disk, v.Root(), ps).value; v.IsDnode(c) && c in v.disk
  {
    assert v.IsFolder(v.Root());
    if ps != [] {
      ReachDnode(v, ps[..|ps| - 1]);
      ChildKnows(v, Reach(v.disk, v.Root(), ps[..|ps| - 1]).value, ps[|ps| - 1]);
    }
  }

  /** Two absolute paths to the same entity have the same components. */
  lemma OnePath(v: Fs, ps: seq<string>, qs: seq<string>)
    requires v.Inv() && Reach(v.disk, v.Root(), ps).Some? && Reach(v.disk, v.Root(), ps) == Reach(v.disk, v.Root(), qs)
    ensures ps == qs
    decreases |ps|
  {
    assert v.IsFolder(v.Root());
    if ps != [] {
      ReachDnode(v, ps[..|ps| - 1]);
      ChildKnows(v, Reach(v.disk, v.Root(), ps[..|ps| - 1]).value, ps[|ps| - 1]);
    }
    if qs != [] {
      ReachDnode(v, qs[..|qs| - 1]);
      ChildKnows(v, Reach(v.disk, v.Root(), qs[..|qs| - 1]).value, qs[|qs| - 1]);
    }
    if ps != [] && qs != [] {
      OnePath(v, ps[..|ps| - 1], qs[..|qs| - 1]);
      assert ps == ps[..|ps| - 1] + [ps[|ps| - 1]] && qs == qs[..|qs| - 1] + [qs[|qs| - 1]];
    }
  }

  // ------------------------------------------------- what a creation changes

  lemma CreatedFind(v: Fs, v': Fs, p: nat, r: nat, block: Block)
    requires v.Inv() && Created(v, v', p, r, block) && Fresh(block, p) && NewName(v, p, NameOf(block))
    ensures Child(v'.disk, p, NameOf(block)) == Some(r)
  {
    assert v.DnodeOk(p) && r !in v.own;
    var s := v.disk[p].contents;
    var s' := s[Count(s) := r];
    CountIs(s', Count(s) + 1);
    forall i | 0 <= i < Count(s) ensures s'[i] in v'.disk && NameOf(v'.disk[s'[i]]) != NameOf(block) {
      assert v.ChildOk(p, s[i]) && v.DnodeOk(s[i]);
      assert v'.disk[s[i]] == v.disk[s[i]];
    }
    FindAt(v'.disk, s', NameOf(block), Count(s));
  }

  /** Every other child of every folder stays the same. */
  lemma CreatedChild(v: Fs, v': Fs, p: nat, r: nat, block: Block, d: nat, name: string)
    requires v.Inv() && Created(v, v', p, r, block) && Fresh(block, p) && NewName(v, p, NameOf(block))
    requires v.IsDnode(d) && !(d == p && name == NameOf(block))
    ensures Child(v'.disk, d, name) == Child(v.disk, d, name)
  {
    assert v.DnodeOk(d) && r !in v.own;
    if v.disk[d].Folder? {
      var s, s' := v.disk[d].contents, v'.disk[d].contents;
      CountIs(s', if d == p then Count(s) + 1 else Count(s));
      forall i | 0 <= i < Count(s)
        ensures s'[i] == s[i] && s[i] in v'.disk && NameOf(v'.disk[s[i]]) == NameOf(v.disk[s[i]])
      {
        assert v.ChildOk(d, s[i]) && v.DnodeOk(s[i]);
        assert s[i] != p ==> v'.disk[s[i]] == v.disk[s[i]];
      }
      if Find(v.disk, s, name) != 0 {
        var k := FindSound(v.disk, s, name);
        FindAt(v'.disk, s', name, k);
      } else {
        FindNoneBack(v.disk, s, name);
        FindNone(v'.disk, s', name);
      }
    }
  }

  lemma FindNoneBack(disk: Disk, s: seq<nat>, name: string)
    requires Find(disk, s, name) == 0
    ensures forall i :: 0 <= i < Count(s) && s[i] in disk ==> NameOf(disk[s[i]]) != name
  {
    if |s| > 0 && s[0] != 0 {
      FindNoneBack(disk, s[1..], name);
      forall i | 0 <= i < Count(s) && s[i] in disk ensures NameOf(disk[s[i]]) != name {
        if i > 0 { assert s[i] == s[1..][i - 1]; }
      }
    }
  }

  /** After creating `name` in the folder that the components ps lead to, the path
      ps + [name] leads to the new entity and every other path where it led before. */
  lemma CreatedReach(v: Fs, v': Fs, p: nat, r: nat, block: Block, ps: seq<string>, qs: seq<string>)
    requires v.Inv() && Created(v, v', p, r, block) && Fresh(block, p) && NewName(v, p, NameOf(block))
    requires Reach(v.disk, v.Root(), ps) == Some(p)
    ensures Reach(v'.disk, v.Root(), qs) == if qs == ps + [NameOf(block)] then Some(r) else Reach(v.disk, v.Root(), qs)
    decreases |qs|
  {
    if qs != [] {
      var n := |qs| - 1;
      var qs', name := qs[..n], qs[n];
      var full := ps + [NameOf(block)];
      assert qs == qs' + [name];
      CreatedReach(v, v', p, r, block, ps, qs');
      CreatedFind(v, v', p, r, block);
      assert full[..|full| - 1] == ps;
      assert Reach(v.disk, v.Root(), full).None? by {
        assert v.DnodeOk(p);
        FindNone(v.disk, v.disk[p].contents, NameOf(block));
      }
      assert qs == full ==> qs' == ps && name == NameOf(block);
      if qs' == full {
        FreshHasNoChild(v', r, block, name);
      } else if Reach(v.disk, v.Root(), qs').Some? {
        var d := Reach(v.disk, v.Root(), qs').value;
        ReachDnode(v, qs');
        if d == p && name == NameOf(block) {
          OnePath(v, ps, qs');
        } else {
          CreatedChild(v, v', p, r, block, d, name);
        }
      }
    }
  }

  lemma FreshHasNoChild(v: Fs, r: nat, block: Block, name: string)
    requires r in v.disk && v.disk[r] == block && (block.Folder? ==> |block.contents| > 0 && block.contents[0] == 0)
    ensures Child(v.disk, r, name).None?
  {}

  // ------------------------------------------------- what a deletion changes

  /** With names that differ, the search finds the one entry with the name. */
  lemma FindOnly(v: Fs, s: seq<nat>, name: string, j: nat)
    requires v.Siblings(s, Count(s)) && j < Count(s) && s[j] in v.disk && NameOf(v.disk[s[j]]) == name
    ensures Find(v.disk, s, name) == s[j]
  {
    FindAt(v.disk, s, name, j);
  }

  /** Folder p has lost the child d and no other, although its entries were reordered. */
  lemma RemovedFromParent(v: Fs, v': Fs, d: nat, p: nat, k: nat, freed: set<nat>, name: string)
    requires v.Inv() && v'.Inv() && Removed(v, v', d, p, k, freed)
    ensures Child(v'.disk, p, name) == if Child(v.disk, p, name) == Some(d) then None else Child(v.disk, p, name)
  {
    assert v.DnodeOk(p) && v.DnodeOk(d);
    var s, r := v.disk[p].contents, v'.disk[p].contents;
    RemoveAtEffect(s, k);
    DnodeStays(v, v', d, p, k, freed, p);
    assert v'.DnodeOk(p);
    forall i | 0 <= i < Count(s) && i != k ensures s[i] in v'.disk && NameOf(v'.disk[s[i]]) == NameOf(v.disk[s[i]]) {
      assert v.ChildOk(p, s[i]);
      DnodeStays(v, v', d, p, k, freed, s[i]);
    }
    if Find(v.disk, s, name) == 0 || Find(v.disk, s, name) == d {
      NotLeft(v, v', s, r, k, name);
    } else {
      StillThere(v, v', s, r, k, name);
    }
  }

  /** An entry that was there and was not entry k is there afterwards. */
  lemma StillThere(v: Fs, v': Fs, s: seq<nat>, r: seq<nat>, k: nat, name: string)
    requires k < Count(s) && Count(r) == Count(s) - 1 && v'.Siblings(r, Count(r))
    requires forall i :: 0 <= i < Count(r) ==> r[i] == if i == k then s[Count(s) - 1] else s[i]
    requires forall i :: 0 <= i < Count(s) && i != k ==>
      s[i] in v.disk && s[i] in v'.disk && NameOf(v'.disk[s[i]]) == NameOf(v.disk[s[i]])
    requires Find(v.disk, s, name) != 0 && Find(v.disk, s, name) != s[k]
    ensures Find(v'.disk, r, name) == Find(v.disk, s, name)
  {
    var j := FindSound(v.disk, s, name);
    var j' := if j == Count(s) - 1 then k else j;
    assert j != k && r[j'] == s[j];
    FindOnly(v', r, name, j');
  }

  /** An entry that was not there, or was entry k, is not there afterwards. */
  lemma NotLeft(v: Fs, v': Fs, s: seq<nat>, r: seq<nat>, k: nat, name: string)
    requires k < Count(s) && Count(r) == Count(s) - 1 && v.Siblings(s, Count(s)) && s[k] in v.disk
    requires forall i :: 0 <= i < Count(r) ==> r[i] == if i == k then s[Count(s) - 1] else s[i]
    requires forall i :: 0 <= i < Count(s) && i != k ==>
      s[i] in v.disk && s[i] in v'.disk && NameOf(v'.disk[s[i]]) == NameOf(v.disk[s[i]])
    requires forall i, j :: 0 <= i < j < Count(s) ==> s[i] != s[j]
    requires Find(v.disk, s, name) == 0 || Find(v.disk, s, name) == s[k]
    ensures Find(v'.disk, r, name) == 0
  {
    if Find(v.disk, s, name) == 0 {
      FindNoneBack(v.disk, s, name);
    } else {
      var j := FindSound(v.disk, s, name);
      assert j == k;
    }
    forall i | 0 <= i < Count(r) ensures NameOf(v'.disk[r[i]]) != name {
      var i' := if i == k then Count(s) - 1 else i;
      assert i' != k && r[i] == s[i'];
    }
    FindNone(v'.disk, r, name);
  }

  lemma RemovedChild(v: Fs, v': Fs, d: nat, p: nat, k: nat, freed: set<nat>, e: nat, name: string)
    requires v.Inv() && v'.Inv() && Removed(v, v', d, p, k, freed) && v.IsDnode(e) && e != d
    ensures Child(v'.disk, e, name) == if Child(v.disk, e, name) == Some(d) then None else Child(v.disk, e, name)
  {
    if e == p {
      RemovedFromParent(v, v', d, p, k, freed, name);
    } else {
      assert v.DnodeOk(e);
      DnodeStays(v, v', d, p, k, freed, e);
      if v.disk[e].Folder? {
        var s := v.disk[e].contents;
        forall i | 0 <= i < Count(s)
          ensures s[i] != d && s[i] in v.disk && s[i] in v'.disk && NameOf(v'.disk[s[i]]) == NameOf(v.disk[s[i]])
        {
          assert v.ChildOk(e, s[i]);
          DnodeStays(v, v', d, p, k, freed, s[i]);
        }
        SameFind(v.disk, v'.disk, s, name);
        if Find(v.disk, s, name) != 0 {
          var j := FindSound(v.disk, s, name);
        }
      }
    }
  }

  lemma SameFind(disk: Disk, disk': Disk, s: seq<nat>, name: string)
    requires forall i :: 0 <= i < Count(s) ==>
      s[i] in disk && s[i] in disk' && NameOf(disk'[s[i]]) == NameOf(disk[s[i]])
    ensures Find(disk', s, name) == Find(disk, s, name)
  {
    if Find(disk, s, name) != 0 {
      var k := FindSound(disk, s, name);
      FindAt(disk', s, name, k);
    } else {
      FindNoneBack(disk, s, name);
      FindNone(disk', s, name);
    }
  }

  /** After a deletion exactly the paths that led to the entity lead nowhere; every other
      path leads where it led. */
  lemma RemovedReach(v: Fs, v': Fs, d: nat, p: nat, k: nat, freed: set<nat>, qs: seq<string>)
    requires v.Inv() && v'.Inv() && Removed(v, v', d, p, k, freed)
    ensures Reach(v'.disk, v'.Root(), qs) ==
      if Reach(v.disk, v.Root(), qs) == Some(d) then None else Reach(v.disk, v.Root(), qs)
    decreases |qs|
  {
    if qs != [] {
      var qs', name := qs[..|qs| - 1], qs[|qs| - 1];
      RemovedReach(v, v', d, p, k, freed, qs');
      if Reach(v.disk, v.Root(), qs').Some? {
        ReachDnode(v, qs');
        var e := Reach(v.disk, v.Root(), qs').value;
        assert v.DnodeOk(d);
        if e != d { RemovedChild(v, v', d, p, k, freed, e, name); }
      }
    }
  }

  // ------------------------------------------------- one tree

  /** Some path leads from the root to d. */
  ghost predicate HasPath(v: Fs, d: nat) {
    exists ps :: Reach(v.disk, v.Root(), ps) == Some(d)
  }

  /** Every entity is reached from the root; OnePath says that one path only leads to it. */
  ghost predicate Rooted(v: Fs) {
    forall d {:trigger HasPath(v, d)} :: v.IsDnode(d) ==> HasPath(v, d)
  }

  lemma CreatedRooted(v: Fs, v': Fs, p: nat, r: nat, block: Block)
    requires v.Inv() && Rooted(v) && Created(v, v', p, r, block) && Fresh(block, p) && NewName(v, p, NameOf(block))
    ensures Rooted(v')
  {
    assert HasPath(v, p);
    var ps :| Reach(v.disk, v.Root(), ps) == Some(p);
    forall e: nat | v'.IsDnode(e) ensures HasPath(v', e) {
      if e == r {
        CreatedReach(v, v', p, r, block, ps, ps + [NameOf(block)]);
        assert Reach(v'.disk, v'.Root(), ps + [NameOf(block)]) == Some(r);
      } else {
        assert HasPath(v, e);
        var qs :| Reach(v.disk, v.Root(), qs) == Some(e);
        CreatedReach(v, v', p, r, block, ps, qs);
        NothingThere(v, p, block, ps);
        assert Reach(v'.disk, v'.Root(), qs) == Some(e);
      }
    }
  }

  /** The path of an entity to be created leads nowhere yet. */
  lemma NothingThere(v: Fs, p: nat, block: Block, ps: seq<string>)
    requires v.Inv() && v.IsFolder(p) && NewName(v, p, NameOf(block)) && Reach(v.disk, v.Root(), ps) == Some(p)
    ensures Reach(v.disk, v.Root(), ps + [NameOf(block)]).None?
  {
    var full := ps + [NameOf(block)];
    assert full[..|full| - 1] == ps;
    assert v.DnodeOk(p);
    FindNone(v.disk, v.disk[p].contents, NameOf(block));
  }

  /** A change to one file changes no path. */
  lemma OnlyReach(v: Fs, v': Fs, d: nat, qs: seq<string>)
    requires v.Inv() && Only(v, v', d) && v.IsFile(d)
    ensures Reach(v'.disk, v'.Root(), qs) == Reach(v.disk, v.Root(), qs)
    decreases |qs|
  {
    if qs != [] {
      OnlyReach(v, v', d, qs[..|qs| - 1]);
      if Reach(v.disk, v.Root(), qs[..|qs| - 1]).Some? {
        ReachDnode(v, qs[..|qs| - 1]);
        OnlyChild(v, v', d, Reach(v.disk, v.Root(), qs[..|qs| - 1]).value, qs[|qs| - 1]);
      }
    }
  }

  lemma OnlyChild(v: Fs, v': Fs, d: nat, e: nat, name: string)
    requires v.Inv() && Only(v, v', d) && v.IsFile(d) && v.IsDnode(e)
    ensures Child(v'.disk, e, name) == Child(v.disk, e, name)
  {
    assert v.DnodeOk(e) && v.own[e] == Dnode;
    if e != d && v.disk[e].Folder? {
      assert v'.disk[e] == v.disk[e];
      var s := v.disk[e].contents;
      forall i | 0 <= i < Count(s)
        ensures s[i] in v.disk && s[i] in v'.disk && NameOf(v'.disk[s[i]]) == NameOf(v.disk[s[i]])
      {
        assert v.ChildOk(e, s[i]) && v.own[s[i]] == Dnode;
      }
      SameFind(v.disk, v'.disk, s, name);
    }
  }

  lemma OnlyRooted(v: Fs, v': Fs, d: nat)
    requires v.Inv() && Rooted(v) && Only(v, v', d) && v.IsFile(d)
    ensures Rooted(v')
  {
    forall e: nat | v'.IsDnode(e) ensures HasPath(v', e) {
      assert v.IsDnode(e) && HasPath(v, e);
      var qs :| Reach(v.disk, v.Root(), qs) == Some(e);
      OnlyReach(v, v', d, qs);
    }
  }

  lemma RemovedRooted(v: Fs, v': Fs, d: nat, p: nat, k: nat, freed: set<nat>)
    requires v.Inv() && v'.Inv() && Rooted(v) && Removed(v, v', d, p, k, freed)
    ensures Rooted(v')
  {
    forall e: nat | v'.IsDnode(e) ensures HasPath(v', e) {
      assert v.IsDnode(e) && e != d && HasPath(v, e);
      var qs :| Reach(v.disk, v.Root(), qs) == Some(e);
      RemovedReach(v, v', d, p, k, freed, qs);
    }
  }

  // ------------------------------------------------- where an open starts

  predicate Slash(path: string) {
    path != "" && path[0] == '/'
  }

  /** The folder an open starts from and the rest of its path: the root for a path
      with a leading slash, else the folder the leading dots lead to. */
  function Start(disk: Disk, root: nat, rel: nat, path: string): (r: (nat, string))
    decreases |path|
  {
    if path == "/" then (root, "")
    else if Slash(path) then Start(disk, root, root, path[1..])
    else (Climb(disk, rel, path), Strip(path))
  }

  lemma ClimbFolder(v: Fs, d: nat, path: string)
    requires v.Inv() && v.IsFolder(d)
    ensures v.IsFolder(Above(v.disk, d)) && v.IsFolder(Climb(v.disk, d, path))
    decreases |path|
  {
    assert v.DnodeOk(d);
    if Starts(path, "./") {
      ClimbFolder(v, d, path[2..]);
    } else if Starts(path, "../") {
      ClimbFolder(v, Above(v.disk, d), path[3..]);
    }
  }

  /** One step up is the parent folder; the root is its own. */
  lemma StepUp(v: Fs, d: nat, x: string)
    requires v.Inv() && v.IsFolder(d)
    ensures d != v.Root() ==> d in v.par && v.IsFolder(v.par[d])
    ensures Climb(v.disk, d, "../" + x) == Climb(v.disk, if d == v.Root() then d else v.par[d], x)
    ensures Climb(v.disk, d, "..") == if d == v.Root() then d else v.par[d]
    ensures Strip("../" + x) == Strip(x) && Strip("..") == ""
  {
    assert v.DnodeOk(d) && ("../" + x)[3..] == x && ("../" + x)[1] == '.' && "./"[1] == '/';
    assert Starts("../" + x, "../") && !Starts("../" + x, "./") && !Starts("..", "./") && !Starts("..", "../");
  }

  lemma StepHere(disk: Disk, d: nat, x: string)
    ensures Climb(disk, d, "./" + x) == Climb(disk, d, x) && Strip("./" + x) == Strip(x)
  {
    assert ("./" + x)[2..] == x && Starts("./" + x, "./");
  }

  /** A path that begins with a name stays where it is. */
  lemma NoStep(disk: Disk, d: nat, x: string)
    requires !Starts(x, "./") && !Starts(x, "../") && x != ".."
    ensures Climb(disk, d, x) == d && Strip(x) == x
  {}

  lemma StartPlain(disk: Disk, root: nat, rel: nat, x: string)
    requires !Slash(x)
    ensures Start(disk, root, rel, x) == (Climb(disk, rel, x), Strip(x))
  {}

  lemma StartSlash(disk: Disk, root: nat, rel: nat, x: string)
    ensures Start(disk, root, rel, "/" + x) == Start(disk, root, root, x)
  {
    assert ("/" + x)[1..] == x;
  }
}
