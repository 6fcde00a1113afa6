/** A file of dzFS as a sequence of bytes. */
module DzContent {
  import opened DzDisk
  import opened DzState
  import opened DzWrite

  /** The file has exactly the blocks its size calls for: what creating a file gives
      and appending keeps. */
  ghost predicate Clean(v: Fs, d: nat) {
    && v.IsFile(d) && v.disk[d].size <= MAX_FILE
    && var m, size := MapOf(v.disk, d), v.disk[d].size;
    && Shaped(m)
    && (forall i :: 0 <= i < SLOTS ==> (Slot(m, i) != 0 <==> i * BLOCK < size))
    && (m.indirect != 0 <==> size > DIRECT * BLOCK)
  }

  function Byte(v: Fs, d: nat, k: nat): (x: bv8)
    requires v.IsFile(d) && Shaped(MapOf(v.disk, d)) && k < MAX_FILE
  {
    ByteAt(v.disk, MapOf(v.disk, d), k / BLOCK, k % BLOCK)
  }

  ghost function Content(v: Fs, d: nat): (s: seq<bv8>)
    requires Clean(v, d)
    ensures |s| == v.disk[d].size && forall k :: 0 <= k < |s| ==> s[k] == Byte(v, d, k)
  {
    seq(v.disk[d].size, k requires 0 <= k < v.disk[d].size => Byte(v, d, k))
  }

  /** Appending turns the content into the old content followed by the data. */
  lemma AppendContent(v: Fs, v': Fs, d: nat, data: seq<bv8>)
    requires v.Inv() && v'.Inv() && Clean(v, d) && v.disk[d].size + |data| <= MAX_FILE
    requires Wrote(v, v', d, data, v.disk[d].size)
    ensures Clean(v', d) && Content(v', d) == Content(v, d) + data
  {
    var size := v.disk[d].size;
    var m, m', off := MapOf(v.disk, d), MapOf(v'.disk, d), size + |data|;
    forall i | 0 <= i < SLOTS ensures Slot(m', i) != 0 <==> i * BLOCK < off {
      assert GrownAt(m, m', size, off, i);
      var j := if size <= i * BLOCK then 0 else BLOCK - 1;
      assert ByteOk(v.disk, m, v'.disk, m', data, size, off, i, j);
    }
    if off > DIRECT * BLOCK { assert Slot(m', DIRECT) != 0 && GrownAt(m, m', size, off, DIRECT); }
    forall k | 0 <= k < off ensures Byte(v', d, k) == if k < size then Byte(v, d, k) else data[k - size] {
      assert ByteOk(v.disk, m, v'.disk, m', data, size, off, k / BLOCK, k % BLOCK);
      assert k < size ==> Slot(m, k / BLOCK) != 0;
    }
  }

  /** A write leaves every other file alone. */
  lemma OtherContent(v: Fs, v': Fs, d: nat, e: nat)
    requires v.Inv() && Only(v, v', d) && v.IsFile(d) && e != d && Clean(v, e)
    ensures Clean(v', e) && Content(v', e) == Content(v, e)
  {
    OnlyKeepsFile(v, v', d, e);
    assert v.own[e] == Dnode && v'.Holds(e, v.own[e]);
  }

  /** Wherever the write was, the bytes it was given are there afterwards. */
  lemma WrittenBytes(v: Fs, v': Fs, d: nat, data: seq<bv8>, at: nat, k: nat)
    requires Wrote(v, v', d, data, at) && at + |data| <= MAX_FILE && at <= k < at + |data|
    ensures Byte(v', d, k) == data[k - at] && Slot(MapOf(v'.disk, d), k / BLOCK) != 0
  {
    assert ByteOk(v.disk, MapOf(v.disk, d), v'.disk, MapOf(v'.disk, d), data, at, at + |data|, k / BLOCK, k % BLOCK);
  }

  /** dzfs_write always adds the length written to the size.  That is the length a
      file should then have exactly when the write was an append, or wrote nothing. */
  lemma SizeAfterWrite(v: Fs, v': Fs, d: nat, data: seq<bv8>, at: nat)
    requires Wrote(v, v', d, data, at) && at <= v.disk[d].size && v.disk[d].size + |data| < UINT32
    ensures v'.disk[d].size == (if at + |data| > v.disk[d].size then at + |data| else v.disk[d].size)
      <==> at == v.disk[d].size || data == []
  {}

  /** Overwriting from offset 0 with less than a block clears the rest of the block. */
  lemma RestOfFirstBlock(v: Fs, v': Fs, d: nat, data: seq<bv8>, k: nat)
    requires Wrote(v, v', d, data, 0) && 0 < |data| <= k < BLOCK
    ensures Byte(v', d, k) == 0
  {
    assert ByteOk(v.disk, MapOf(v.disk, d), v'.disk, MapOf(v'.disk, d), data, 0, |data|, 0, k);
  }

  /** Every byte of the file outside [lo, hi) is what it was. */
  ghost predicate OthersKept(v: Fs, v': Fs, d: nat, lo: nat, hi: nat)
    requires v.IsFile(d) && v'.IsFile(d) && Shaped(MapOf(v.disk, d)) && Shaped(MapOf(v'.disk, d))
  {
    forall k: nat {:trigger Byte(v', d, k)} ::
      k < MAX_FILE && !(lo <= k < hi) && Slot(MapOf(v.disk, d), k / BLOCK) != 0 ==> Byte(v', d, k) == Byte(v, d, k)
  }

  /** A write leaves the rest of the file alone exactly if it does not start at 0, or
      writes nothing, or there was nothing else but zeros in the first block. */
  lemma RestSurvives(v: Fs, v': Fs, d: nat, data: seq<bv8>, at: nat)
    requires Wrote(v, v', d, data, at) && at + |data| <= MAX_FILE
    ensures OthersKept(v, v', d, at, at + |data|) <==>
      || at > 0 || data == [] || Slot(MapOf(v.disk, d), 0) == 0
      || forall k :: |data| <= k < BLOCK ==> Byte(v, d, k) == 0
    ensures at > 0 || data == [] || |data| >= BLOCK ==> OthersKept(v, v', d, at, at + |data|)
  {
    var m0, m, end := MapOf(v.disk, d), MapOf(v'.disk, d), at + |data|;
    forall k: nat | k < MAX_FILE && !(at <= k < end) && Slot(m0, k / BLOCK) != 0 && !(at == 0 && 0 < end && k < BLOCK)
      ensures Byte(v', d, k) == Byte(v, d, k)
    {
      assert ByteOk(v.disk, m0, v'.disk, m, data, at, end, k / BLOCK, k % BLOCK);
    }
    if at == 0 && data != [] {
      forall k: nat | |data| <= k < BLOCK ensures Byte(v', d, k) == 0 { RestOfFirstBlock(v, v', d, data, k); }
      if OthersKept(v, v', d, at, end) && Slot(m0, 0) != 0 {
        forall k: nat | |data| <= k < BLOCK ensures Byte(v, d, k) == 0 { assert Byte(v', d, k) == Byte(v, d, k); }
      }
    }
  }

  /** An append that fails for lack of space leaves the content as it was. */
  lemma FailedAppend(v: Fs, v': Fs, d: nat, data: seq<bv8>, off: nat)
    requires Clean(v, d) && Partial(v, v', d, data, v.disk[d].size, off)
    ensures Clean(v', d) && Content(v', d) == Content(v, d)
  {
    var m, size := MapOf(v.disk, d), v.disk[d].size;
    forall k | 0 <= k < size ensures Byte(v', d, k) == Byte(v, d, k) {
      assert Slot(m, k / BLOCK) != 0;
      assert ByteOk(v.disk, m, v'.disk, m, data, size, off, k / BLOCK, k % BLOCK);
    }
  }
}
