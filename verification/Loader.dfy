/** Loading program segments: the PT_LOAD loop of kernel/src/userspace/exec.c and the
    copying through a page table of kernel/src/mem/vmm.c (chapter 5 of the System V gABI).

    `ram` holds the content of frames.  The executable is the sequence of its bytes;
    reading it is dzfs_read, which gives what there is. */
module Loader {
  import opened Prelude
  import PT = PageTables
  import R = Rounding

  newtype Byte = x: int | 0 <= x < 256

  type Ram = map<nat, seq<Byte>>

  const PAGE: nat := 4096
  const VA_MIN: nat := 0x40_0000             // USERSPACE_VA_MIN
  const VA_MAX: nat := 0x4000_0000_0000      // USERSPACE_VA_MAX

  ghost predicate InUser(v: int) {
    PT.MIN_PAGE <= v < PT.USER_PAGES
  }

  /** The entry for page v. */
  function PageOf(mem: PT.Tables, root: nat, v: nat): (m: Option<PT.Mapping>) {
    PT.Meet(mem, root, v).found
  }

  /** The frame of a mapped user page is in ram and belongs to that page alone. */
  ghost predicate Held(mem: PT.Tables, root: nat, ram: Ram, own: map<nat, nat>, v: nat) {
    InUser(v) && PageOf(mem, root, v).Some? ==>
      var f := PageOf(mem, root, v).value.frame;
      f in ram && |ram[f]| == PAGE && f in own && own[f] == v
  }

  ghost predicate Private(mem: PT.Tables, root: nat, ram: Ram, own: map<nat, nat>) {
    forall v: nat {:trigger Held(mem, root, ram, own, v)} :: Held(mem, root, ram, own, v)
  }

  /** The byte a process with this root sees at va. */
  function ByteAt(mem: PT.Tables, root: nat, ram: Ram, va: nat): (b: Byte) {
    var m := PageOf(mem, root, va / PAGE);
    if m.Some? && m.value.frame in ram && |ram[m.value.frame]| == PAGE then ram[m.value.frame][va % PAGE] else 0
  }

  /** Exactly the bytes from `start` on have become `data`. */
  ghost predicate Written(mem: PT.Tables, root: nat, ram: Ram, ram': Ram, start: nat, data: seq<Byte>) {
    forall va: nat {:trigger ByteAt(mem, root, ram', va)} :: VA_MIN <= va < VA_MAX ==>
      ByteAt(mem, root, ram', va) == if start <= va < start + |data|
        then data[va - start] else ByteAt(mem, root, ram, va)
  }

  lemma WrittenMore(mem: PT.Tables, root: nat, ram: Ram, ram1: Ram, ram': Ram, start: nat, data: seq<Byte>, next: nat,
                    more: seq<Byte>)
    requires Written(mem, root, ram, ram1, start, data) && Written(mem, root, ram1, ram', next, more)
    requires next == start + |data|
    ensures Written(mem, root, ram, ram', start, data + more)
  {
    forall va: nat | VA_MIN <= va < VA_MAX
      ensures ByteAt(mem, root, ram', va) ==
        if start <= va < start + |data + more| then (data + more)[va - start] else ByteAt(mem, root, ram, va)
    {
      assert ByteAt(mem, root, ram1, va) == if start <= va < start + |data|
        then data[va - start] else ByteAt(mem, root, ram, va);
    }
  }

  /** Part of a frame replaced. */
  function Patched(page: seq<Byte>, off: nat, data: seq<Byte>): (r: seq<Byte>)
    requires off + |data| <= |page|
    ensures |r| == |page|
    ensures forall i :: 0 <= i < |r| ==> r[i] == if off <= i < off + |data| then data[i - off] else page[i]
  {
    page[..off] + data + page[off + |data|..]
  }

  lemma Split(a: nat)
    ensures a / PAGE * PAGE + a % PAGE == a && a % PAGE < PAGE
  {
  }

  /** Addresses of one page. */
  lemma SamePage(v: nat, off: nat, va: nat)
    requires off < PAGE && va / PAGE == v
    ensures va % PAGE == va - v * PAGE && (v * PAGE + off) / PAGE == v && (v * PAGE + off) % PAGE == off
  {
  }

  /** Writing into the frame of a page writes to that page and nowhere else. */
  lemma StoreWritten(mem: PT.Tables, root: nat, ram: Ram, own: map<nat, nat>, v: nat, off: nat, data: seq<Byte>)
    requires Private(mem, root, ram, own) && InUser(v) && PageOf(mem, root, v).Some? && off + |data| <= PAGE
    requires off < PAGE
    ensures var f := PageOf(mem, root, v).value.frame;
      && f in ram && |ram[f]| == PAGE
      && var ram' := ram[f := Patched(ram[f], off, data)];
      Private(mem, root, ram', own) && Written(mem, root, ram, ram', v * PAGE + off, data)
  {
    assert Held(mem, root, ram, own, v);
    var f := PageOf(mem, root, v).value.frame;
    var ram' := ram[f := Patched(ram[f], off, data)];
    forall w: nat ensures Held(mem, root, ram', own, w) { assert Held(mem, root, ram, own, w); }
    var start := v * PAGE + off;
    forall va: nat | VA_MIN <= va < VA_MAX
      ensures ByteAt(mem, root, ram', va) == if start <= va < start + |data|
        then data[va - start] else ByteAt(mem, root, ram, va)
    {
      assert Held(mem, root, ram, own, va / PAGE);
      if va / PAGE == v { SamePage(v, off, va); }
    }
  }

  /** vmm_memcpy may write to va. */
  ghost predicate MayCopy(mem: PT.Tables, root: nat, va: nat, user: bool) {
    var m := PageOf(mem, root, va / PAGE);
    VA_MIN <= va < VA_MAX && m.Some? && m.value.rights.user == user && m.value.rights.writable
  }

  /** load_segment may write to va: it does not look at W. */
  ghost predicate MayLoad(mem: PT.Tables, root: nat, va: nat) {
    var m := PageOf(mem, root, va / PAGE);
    VA_MIN <= va < VA_MAX && m.Some? && m.value.rights.user && m.value.frame != 0
  }

  function Least(a: nat, b: nat): nat {
    if a < b then a else b
  }

  /** The bytes of the file from `off` on, at most n. */
  function FileBytes(file: seq<Byte>, off: nat, n: nat): (data: seq<Byte>)
    ensures |data| <= n && (|data| == n <==> n == 0 || off + n <= |file|)
  {
    file[Least(off, |file|)..Least(off + n, |file|)]
  }

  function Zeros(n: nat): (s: seq<Byte>)
    ensures |s| == n && forall i :: 0 <= i < n ==> s[i] == 0
  {
    seq(n, _ => 0)
  }

  lemma RoundDownIs(a: nat)
    requires a < R.FOUR_GIB
    ensures R.RoundDown(a) == a / PAGE * PAGE && a - R.RoundDown(a) == a % PAGE
  {
  }

  /** Bad and NoMemory are both the failure return of proc_exec. */
  datatype Outcome = Done | Bad | NoMemory | Panic

  const PT_LOAD: nat := 1
  const PF_X: nat := 1
  const PF_W: nat := 2

  /** What proc_exec uses of a program header. */
  datatype Header = Header(kind: nat, flags: nat, off: nat, vaddr: nat, filesz: nat, memsz: nat)
  {
    predicate Loads() { kind == PT_LOAD }

    predicate Has(flag: nat)
      requires flag > 0
    {
      flags / flag % 2 == 1
    }
  }

  /** flags2perm, with XD for pages that are not executable. */
  function RightsOf(flags: nat): PT.Rights {
    var executable := flags % 2 == 1;
    var writable := flags / 2 % 2 == 1;
    PT.Rights(writable, true, !executable)
  }

  class Machine {
    const vm: PT.AddressSpaces
    var ram: Ram
    ghost var own: map<nat, nat>

    constructor (vm: PT.AddressSpaces, ram: Ram)
      ensures this.vm == vm && this.ram == ram && own == map[]
    {
      this.vm, this.ram, own := vm, ram, map[];
    }

    ghost predicate Ready(root: nat)
      reads this, vm
    {
      && vm.Valid() && PT.IsRoot(vm.at, vm.tables, root) && PT.Small(vm.mem, root)
      && Private(vm.mem, root, ram, own) && PoolOk(vm.free, ram, own)
    }

    /** memmove into the frame of page v. */
    method Store(root: nat, v: nat, frame: nat, off: nat, data: seq<Byte>)
      requires Ready(root) && InUser(v) && PageOf(vm.mem, root, v).Some? && PageOf(vm.mem, root, v).value.frame == frame
      requires off < PAGE && off + |data| <= PAGE
      modifies this`ram
      ensures Ready(root) && Written(vm.mem, root, old(ram), ram, v * PAGE + off, data)
    {
      StoreWritten(vm.mem, root, ram, own, v, off, data);
      ram := ram[frame := Patched(ram[frame], off, data)];
    }

    /** One turn of vmm_memcpy: as much of data as the page of va holds; 0 if it may not
        be written. */
    method CopyTurn(root: nat, va: nat, data: seq<Byte>, user: bool) returns (n: nat)
      requires Ready(root) && data != [] && va < R.FOUR_GIB
      modifies this`ram, vm
      ensures Ready(root) && vm.mem == old(vm.mem) && vm.at == old(vm.at) && vm.tables == old(vm.tables)
      ensures vm.free == old(vm.free)
      ensures n == if MayCopy(vm.mem, root, va, user) then OnPage(va, |data|) else 0
      ensures Written(vm.mem, root, old(ram), ram, va, data[..n])
    {
      var va0, off := PageStart(va);
      if va0 >= VA_MAX || va0 < VA_MIN { return 0; }
      assert PT.PlainAt(vm.mem, root, va0 / PAGE);
      var m := vm.Find(root, va0);
      if m.None? || m.value.rights.user != user || !m.value.rights.writable { return 0; }
      n := PAGE - off;
      if n > |data| { n := |data|; }
      Store(root, va / PAGE, m.value.frame, off, data[..n]);
    }

    /** The page of an address below 4 GiB and the offset in it. */
    method PageStart(va: nat) returns (va0: nat, off: nat)
      requires va < R.FOUR_GIB
      ensures va0 == va / PAGE * PAGE && va0 / PAGE == va / PAGE && off == va % PAGE && va == va0 + off && off < PAGE
      ensures (va0 >= VA_MAX <==> va >= VA_MAX) && (va0 < VA_MIN <==> va < VA_MIN)
    {
      va0 := R.RoundDown(va);
      RoundDownIs(va);
      Split(va);
      off := va - va0;
    }

    /** A turn of vmm_memcpy after i bytes. */
    method CopyNext(root: nat, dest: nat, data: seq<Byte>, user: bool, i: nat, ghost ram0: Ram) returns (n: nat)
      requires Ready(root) && i < |data| && dest + |data| <= R.FOUR_GIB
      requires Written(vm.mem, root, ram0, ram, dest, data[..i]) && AllCopy(vm.mem, root, dest, i, user)
      modifies this`ram, vm
      ensures Ready(root) && vm.mem == old(vm.mem) && vm.at == old(vm.at) && vm.tables == old(vm.tables)
      ensures vm.free == old(vm.free)
      ensures n == if MayCopy(vm.mem, root, dest + i, user) then OnPage(dest + i, |data| - i) else 0
      ensures n <= |data| - i && Written(vm.mem, root, ram0, ram, dest, data[..i + n])
      ensures AllCopy(vm.mem, root, dest, i + n, user)
    {
      n := CopyTurn(root, dest + i, data[i..], user);
      if n > 0 { AllCopyMore(vm.mem, root, dest, i, n, user); }
      WrittenMore(vm.mem, root, ram0, old(ram), ram, dest, data[..i], dest + i, data[i..][..n]);
      assert data[..i] + data[i..][..n] == data[..i + n];
    }

    /** vmm_memcpy: it stops at the first byte that may not be written. */
    method MemCpy(root: nat, dest: nat, data: seq<Byte>, user: bool) returns (ok: bool, ghost k: nat)
      requires Ready(root) && dest + |data| <= R.FOUR_GIB
      modifies this`ram, vm
      ensures Ready(root) && vm.mem == old(vm.mem) && vm.at == old(vm.at) && vm.tables == old(vm.tables)
      ensures vm.free == old(vm.free)
      ensures k <= |data| && Written(vm.mem, root, old(ram), ram, dest, data[..k])
      ensures ok <==> k == |data|
      ensures AllCopy(vm.mem, root, dest, k, user) && (!ok ==> !MayCopy(vm.mem, root, dest + k, user))
    {
      var va, i := dest, 0;
      k := 0;
      while i < |data|
        invariant i <= |data| && k == i && (i < |data| ==> va == dest + i) && Ready(root)
        invariant vm.mem == old(vm.mem) && vm.at == old(vm.at) && vm.tables == old(vm.tables) && vm.free == old(vm.free)
        invariant Written(vm.mem, root, old(ram), ram, dest, data[..i]) && AllCopy(vm.mem, root, dest, i, user)
      {
        var n := CopyNext(root, va - i, data, user, i, old(ram));
        if n == 0 { return false, k; }
        RoundDownIs(va);
        va := R.RoundDown(va) + PAGE;
        i := i + n;
        k := i;
      }
      ok := true;
    }

    /** vmm_zero */
    method Zero(root: nat, start: nat, len: nat) returns (ok: bool, ghost k: nat)
      requires Ready(root) && start + len <= R.FOUR_GIB
      modifies this`ram, vm
      ensures Ready(root) && vm.mem == old(vm.mem) && vm.at == old(vm.at) && vm.tables == old(vm.tables)
      ensures vm.free == old(vm.free)
      ensures k <= len && Written(vm.mem, root, old(ram), ram, start, Zeros(k))
      ensures ok <==> k == len
      ensures AllCopy(vm.mem, root, start, k, true) && (!ok ==> !MayCopy(vm.mem, root, start + k, true))
    {
      var va, end := start, start + len;
      k := 0;
      while va < end
        invariant start <= va <= end && k == va - start && Ready(root)
        invariant vm.mem == old(vm.mem) && vm.at == old(vm.at) && vm.tables == old(vm.tables) && vm.free == old(vm.free)
        invariant Written(vm.mem, root, old(ram), ram, start, Zeros(k)) && AllCopy(vm.mem, root, start, k, true)
      {
        var n := if end - va > PAGE then PAGE else end - va;
        ghost var ram1, j := ram, 0;
        ok, j := MemCpy(root, va, Zeros(n), true);
        assert Zeros(n)[..j] == Zeros(j) && Zeros(k) + Zeros(j) == Zeros(k + j);
        WrittenMore(vm.mem, root, old(ram), ram1, ram, start, Zeros(k), start + k, Zeros(j));
        AllCopyJoin(vm.mem, root, start, k, j, true);
        k := k + j;
        if !ok { return false, k; }
        va := va + n;
      }
      ok := true;
    }

    /** The frame load_segment writes to for va, or 0. */
    method UserFrame(root: nat, va: nat) returns (frame: nat)
      requires Ready(root)
      modifies vm
      ensures Ready(root) && vm.mem == old(vm.mem) && vm.at == old(vm.at) && vm.tables == old(vm.tables)
      ensures vm.free == old(vm.free)
      ensures frame != 0 <==> MayLoad(vm.mem, root, va)
      ensures frame != 0 ==> PageOf(vm.mem, root, va / PAGE).value.frame == frame
    {
      assert PT.PlainAt(vm.mem, root, va / PAGE);
      var w, pa := vm.WalkAddr(root, va, true);
      frame := if w.Panic? then 0 else pa / PAGE;
    }

    /** One turn of load_segment. */
    method LoadTurn(root: nat, va: nat, file: seq<Byte>, off: nat, n: nat) returns (r: Outcome, ghost k: nat)
      requires Ready(root) && 0 < n <= PAGE - va % PAGE
      modifies this`ram, vm
      ensures Ready(root) && vm.mem == old(vm.mem) && vm.at == old(vm.at) && vm.tables == old(vm.tables)
      ensures vm.free == old(vm.free)
      ensures k <= n && |FileBytes(file, off, k)| == k
      ensures Written(vm.mem, root, old(ram), ram, va, FileBytes(file, off, k))
      ensures (r.Done? <==> k == n) && (k > 0 ==> off + k <= |file| && MayLoad(vm.mem, root, va))
      ensures r.Bad? ==> off + n > |file|
      ensures r.Panic? ==> k == 0 && !MayLoad(vm.mem, root, va)
      ensures !r.NoMemory?
    {
      k := 0;
      var frame := UserFrame(root, va);
      if frame == 0 { return Panic, 0; }
      var data := FileBytes(file, off, n);
      Split(va);
      Store(root, va / PAGE, frame, va % PAGE, data);
      k := |data|;
      assert data == FileBytes(file, off, k);
      r := if |data| != n then Bad else Done;
    }

    /** offset + i is a 32-bit sum; it does not wrap while the reads succeed. */
    method OffsetOf(file: seq<Byte>, offset: nat, i: nat) returns (off: nat)
      requires |file| < R.FOUR_GIB && offset < R.FOUR_GIB && (i > 0 ==> offset + i <= |file|)
      ensures off == offset + i
    {
      off := (offset + i) % R.FOUR_GIB;
    }

    /** A turn of load_segment after i bytes: the next j, all of them up to the end of the
        page if r is Done. */
    method LoadNext(root: nat, va: nat, file: seq<Byte>, offset: nat, sz: nat, i: nat, ghost ram0: Ram)
      returns (r: Outcome, n: nat, ghost j: nat)
      requires Ready(root) && |file| < R.FOUR_GIB && offset < R.FOUR_GIB && i < sz && (i > 0 ==> offset + i <= |file|)
      requires Written(vm.mem, root, ram0, ram, va, FileBytes(file, offset, i)) && AllLoad(vm.mem, root, va, i)
      modifies this`ram, vm
      ensures Ready(root) && vm.mem == old(vm.mem) && vm.at == old(vm.at) && vm.tables == old(vm.tables)
      ensures vm.free == old(vm.free)
      ensures j <= n <= sz - i && 0 < n && (r.Done? <==> j == n) && (i + j > 0 ==> offset + i + j <= |file|)
      ensures Written(vm.mem, root, ram0, ram, va, FileBytes(file, offset, i + j)) && AllLoad(vm.mem, root, va, i + j)
      ensures r.Bad? ==> offset + i + n > |file|
      ensures r.Panic? ==> j == 0 && !MayLoad(vm.mem, root, va + i)
      ensures !r.NoMemory?
    {
      var next := va + i;
      n := OnPage(next, sz - i);
      var off := OffsetOf(file, offset, i);
      r, j := LoadTurn(root, next, file, off, n);
      LoadedMore(vm.mem, root, ram0, old(ram), ram, va, file, offset, i, next, off, j);
    }

    /** load_segment: the bytes of the file from `offset` on, whatever the alignment of va. */
    method LoadSegment(root: nat, va: nat, file: seq<Byte>, offset: nat, sz: nat) returns (r: Outcome, ghost k: nat)
      requires Ready(root) && |file| < R.FOUR_GIB && offset < R.FOUR_GIB && sz < R.FOUR_GIB
      modifies this`ram, vm
      ensures Ready(root) && vm.mem == old(vm.mem) && vm.at == old(vm.at) && vm.tables == old(vm.tables)
      ensures vm.free == old(vm.free)
      ensures k <= sz && |FileBytes(file, offset, k)| == k
      ensures Written(vm.mem, root, old(ram), ram, va, FileBytes(file, offset, k))
      ensures AllLoad(vm.mem, root, va, k)
      ensures r.Done? <==> k == sz
      ensures r.Bad? ==> offset + sz > |file|
      ensures r.Panic? ==> !MayLoad(vm.mem, root, va + k)
      ensures !r.NoMemory?
    {
      var i := 0;
      k := 0;
      while i < sz
        invariant i <= sz && k == i && Ready(root) && (i > 0 ==> offset + i <= |file|)
        invariant vm.mem == old(vm.mem) && vm.at == old(vm.at) && vm.tables == old(vm.tables) && vm.free == old(vm.free)
        invariant Written(vm.mem, root, old(ram), ram, va, FileBytes(file, offset, i)) && AllLoad(vm.mem, root, va, i)
      {
        var n;
        ghost var j;
        r, n, j := LoadNext(root, va, file, offset, sz, i, old(ram));
        k := i + j;
        if !r.Done? { return; }
        i := i + n;
      }
      r := Done;
    }

    /** The n pages of a segment from page `first` on. */
    method Prepare(root: nat, start: nat, size: nat, rights: PT.Rights, ghost first: nat, ghost n: nat)
      returns (r: PT.Outcome, ghost frames: seq<nat>)
      requires Ready(root) && start == first * PAGE && size == n * PAGE
      modifies vm, this`own
      ensures Ready(root)
      ensures PT.Made(old(vm.mem), old(vm.at), old(vm.tables), vm.mem, vm.at, vm.tables, root, first, frames, rights)
      ensures |frames| <= n && (r.Done? <==> 0 < n == |frames|)
      ensures r.Panic? ==> n == 0 || (|frames| < n && !PT.Vacant(old(vm.mem), root, first + |frames|))
      ensures r.NoMemory? ==> PT.Short(vm.mem, vm.free, root, first + |frames|)
      ensures !r.Panic? ==> NoneLost(old(vm.free), old(vm.tables), old(own), vm.free, vm.tables, own)
      ensures forall i :: 0 <= i < |frames| ==> frames[i] != 0
    {
      assert start / PAGE == first && start % PAGE == 0 && size / PAGE == n && size % PAGE == 0;
      forall v: nat | first <= v < first + n ensures PT.PlainAt(vm.mem, root, v) {}
      r, frames := vm.Allocate(root, start, size, rights);
      PT.SmallKept(old(vm.mem), vm.mem, old(vm.at), old(vm.tables), root, first, frames, rights);
      OwnMore(old(vm.mem), old(vm.at), old(vm.tables), vm.mem, vm.at, vm.tables, root, first, frames, rights,
              ram, own, old(vm.free), vm.free);
      ClaimKeys(own, first, frames);
      own := Claim(own, first, frames);
    }

    /** The bytes of a segment: filesz from the file, then zeros. */
    method Fill(root: nat, start: nat, file: seq<Byte>, off: nat, filesz: nat, memsz: nat)
      returns (r: Outcome, ghost data: seq<Byte>)
      requires Ready(root) && |file| < R.FOUR_GIB && filesz <= memsz && start + memsz < R.FOUR_GIB
      modifies this`ram, vm
      ensures Ready(root) && vm.mem == old(vm.mem) && vm.at == old(vm.at) && vm.tables == old(vm.tables)
      ensures vm.free == old(vm.free)
      ensures |data| <= memsz && Written(vm.mem, root, old(ram), ram, start, data)
      ensures r.Done? ==> data == FileBytes(file, off % R.FOUR_GIB, filesz) + Zeros(memsz - filesz) && |data| == memsz
      ensures r.Done? ==> AllCopy(vm.mem, root, start + filesz, memsz - filesz, true)
      ensures r.Bad? ==>
        || (filesz > 0 && off % R.FOUR_GIB + filesz > |file|)
        || !AllCopy(vm.mem, root, start + filesz, memsz - filesz, true)
      ensures r.Panic? ==> !AllLoad(vm.mem, root, start, filesz)
      ensures !r.NoMemory?
    {
      data := [];
      r := Done;
      ghost var k, j := 0, 0;
      if filesz > 0 {
        r, k := LoadSegment(root, start, file, off % R.FOUR_GIB, filesz % R.FOUR_GIB);
        data := FileBytes(file, off % R.FOUR_GIB, k);
        if !r.Done? { return; }
      }
      if memsz > filesz {
        ghost var ram1 := ram;
        var ok;
        ok, j := Zero(root, start + filesz, memsz - filesz);
        WrittenMore(vm.mem, root, old(ram), ram1, ram, start, data, start + filesz, Zeros(j));
        data := data + Zeros(j);
        r := if ok then Done else Bad;
      }
    }

    /** The turn of the loop of proc_exec for a segment that starts at `start`, once its
        pages are known: n pages from page `first`. */
    method Segment(root: nat, start: nat, size: nat, h: Header, file: seq<Byte>, ghost first: nat, ghost n: nat)
      returns (r: Outcome)
      requires Ready(root) && |file| < R.FOUR_GIB && h.filesz <= h.memsz && start + h.memsz < R.FOUR_GIB
      requires first == start / PAGE && size == n * PAGE && start + h.memsz <= (first + n) * PAGE
      modifies this, vm
      ensures Ready(root) && Elsewhere(old(vm.mem), vm.mem, root, old(ram), ram, first, n)
      ensures r.Done? ==> PT.Unmapped(old(vm.mem), root, first, n) && Image(vm.mem, root, ram, start, h, file)
      ensures r.Done? ==> h.memsz > h.filesz ==> h.Has(PF_W)
      ensures r.Bad? ==>
        || (h.filesz > 0 && h.off % R.FOUR_GIB + h.filesz > |file|) || (h.memsz > h.filesz && !h.Has(PF_W))
      ensures r.Panic? ==> n == 0 || !PT.Unmapped(old(vm.mem), root, first, n)
      ensures r.NoMemory? ==> Card(vm.free) <= 1
      ensures !r.Panic? ==> NoneLost(old(vm.free), old(vm.tables), old(own), vm.free, vm.tables, own)
    {
      Split(start);
      var a;
      ghost var frames, data;
      a, frames := Prepare(root, start - start % PAGE, size, RightsOf(h.flags), first, n);
      ghost var mem1 := vm.mem;
      Untouched(old(vm.mem), old(vm.at), old(vm.tables), mem1, vm.at, vm.tables, root, first, frames,
                RightsOf(h.flags), ram, n);
      if a.NoMemory? { return NoMemory; }
      if a.Panic? { return Panic; }
      GivenPages(old(vm.mem), old(vm.at), old(vm.tables), mem1, vm.at, vm.tables, root, first, frames,
                 RightsOf(h.flags), start, h.filesz, h.memsz);
      r, data := Fill(root, start, file, h.off, h.filesz, h.memsz);
      Apart(old(vm.mem), mem1, root, old(ram), ram, start, data, first, n);
      if r.Done? { Imaged(mem1, root, old(ram), ram, start, h, file, data); }
    }

    /** One turn of the loop of proc_exec over the program headers, for a segment that
        ends at least a page below 4 GiB. */
    method LoadHeader(root: nat, h: Header, bias: nat, file: seq<Byte>) returns (r: Outcome, ghost n: nat)
      requires Ready(root) && |file| < R.FOUR_GIB && (h.Loads() ==> Low(h, bias))
      modifies this, vm
      ensures Ready(root) && Elsewhere(old(vm.mem), vm.mem, root, old(ram), ram, (h.vaddr + bias) / PAGE, n)
      ensures h.Loads() && r.Done? ==> Image(vm.mem, root, ram, h.vaddr + bias, h, file)
      ensures h.Loads() && r.Done? ==> PT.Unmapped(old(vm.mem), root, (h.vaddr + bias) / PAGE, n) && h.filesz <= h.memsz
      ensures h.Loads() && r.Done? && h.memsz > h.filesz ==> h.Has(PF_W)
      ensures !h.Loads() ==> r.Done? && n == 0
      ensures h.Loads() ==> (r.Bad? ==> Wrong(h, bias, file)) && (r.Done? ==> !Wrong(h, bias, file))
      ensures r.Panic? ==> n == 0 || !PT.Unmapped(old(vm.mem), root, (h.vaddr + bias) / PAGE, n)
      ensures r.Panic? && n == 0 ==> h.memsz == 0
      ensures r.NoMemory? ==> Card(vm.free) <= 1
      ensures !r.Panic? ==> NoneLost(old(vm.free), old(vm.tables), old(own), vm.free, vm.tables, own)
    {
      n := 0;
      if !h.Loads() { return Done, 0; }
      if h.memsz < h.filesz { return Bad, 0; }
      var start := (h.vaddr + bias) % R.WORD;
      var mapStart := R.RoundDown(start);
      var mapOffset := (start + R.WORD - mapStart) % R.WORD;
      var size := R.RoundUp(mapOffset + h.memsz);
      n := Extent(h, bias);
      if mapStart < VA_MIN || mapStart + size > VA_MAX { return Bad, 0; }
      r := Segment(root, mapStart + mapOffset, size, h, file, start / PAGE, n);
    }

    /** The loop of proc_exec: when it ends well, every segment is in memory with its
        rights, and what was mapped before is as it was.  It runs out of memory only when
        all frames but one are tables or belong to a page. */
    method LoadProgram(root: nat, headers: seq<Header>, bias: nat, file: seq<Byte>) returns (r: Outcome)
      requires Ready(root) && |file| < R.FOUR_GIB && forall i :: 0 <= i < |headers| && headers[i].Loads() ==>
        Low(headers[i], bias)
      modifies this, vm
      ensures Ready(root)
      ensures (r.Bad? ==> AnyWrong(headers, bias, file)) && (r.Done? ==> !AnyWrong(headers, bias, file))
      ensures r.NoMemory? ==> Card(vm.free) <= 1
      ensures !r.Panic? ==> NoneLost(old(vm.free), old(vm.tables), old(own), vm.free, vm.tables, own)
      ensures r.Done? ==> MappedKept(old(vm.mem), vm.mem, root, old(ram), ram)
      ensures r.Done? ==> forall i :: 0 <= i < |headers| && headers[i].Loads() ==>
        Image(vm.mem, root, ram, headers[i].vaddr + bias, headers[i], file)
    {
      var i := 0;
      while i < |headers|
        invariant i <= |headers| && Ready(root) && MappedKept(old(vm.mem), vm.mem, root, old(ram), ram)
        invariant Images(vm.mem, root, ram, headers[..i], bias, file)
        invariant !AnyWrong(headers[..i], bias, file)
        invariant NoneLost(old(vm.free), old(vm.tables), old(own), vm.free, vm.tables, own)
      {
        r := LoadOne(root, headers, i, bias, file, old(vm.mem), old(ram));
        if !r.Done? { return; }
        i := i + 1;
      }
      assert headers[..i] == headers;
      r := Done;
    }

    method LoadOne(root: nat, headers: seq<Header>, i: nat, bias: nat, file: seq<Byte>, ghost mem0: PT.Tables,
                   ghost ram0: Ram) returns (r: Outcome)
      requires Ready(root) && |file| < R.FOUR_GIB && i < |headers| && (headers[i].Loads() ==> Low(headers[i], bias))
      requires MappedKept(mem0, vm.mem, root, ram0, ram) && Images(vm.mem, root, ram, headers[..i], bias, file)
      modifies this, vm
      ensures Ready(root)
      ensures headers[i].Loads() ==>
        (r.Bad? ==> Wrong(headers[i], bias, file)) && (r.Done? ==> !Wrong(headers[i], bias, file))
      ensures r.Bad? ==> headers[i].Loads()
      ensures r.NoMemory? ==> Card(vm.free) <= 1
      ensures !r.Panic? ==> NoneLost(old(vm.free), old(vm.tables), old(own), vm.free, vm.tables, own)
      ensures r.Done? ==>
        MappedKept(mem0, vm.mem, root, ram0, ram) && Images(vm.mem, root, ram, headers[..i + 1], bias, file)
    {
      ghost var n;
      r, n := LoadHeader(root, headers[i], bias, file);
      if r.Done? {
        KeptMapped(old(vm.mem), vm.mem, root, old(ram), ram, (headers[i].vaddr + bias) / PAGE, n);
        KeptTwice(mem0, old(vm.mem), vm.mem, root, ram0, old(ram), ram);
        forall k | 0 <= k < i && headers[k].Loads()
          ensures Image(vm.mem, root, ram, headers[k].vaddr + bias, headers[k], file)
        {
          assert headers[..i][k] == headers[k];
          ImageKept(old(vm.mem), vm.mem, root, old(ram), ram, headers[k].vaddr + bias, headers[k], file);
        }
      }
    }
  }

  /** How many of n bytes from va on are on the page of va. */
  function OnPage(va: nat, n: nat): (k: nat)
    ensures k <= n && k <= PAGE - va % PAGE && (n > 0 ==> 0 < k)
  {
    if n < PAGE - va % PAGE then n else PAGE - va % PAGE
  }

  ghost predicate AllCopy(mem: PT.Tables, root: nat, start: nat, n: nat, user: bool) {
    forall va: nat {:trigger MayCopy(mem, root, va, user)} :: start <= va < start + n ==> MayCopy(mem, root, va, user)
  }

  lemma AllCopyJoin(mem: PT.Tables, root: nat, start: nat, i: nat, n: nat, user: bool)
    requires AllCopy(mem, root, start, i, user) && AllCopy(mem, root, start + i, n, user)
    ensures AllCopy(mem, root, start, i + n, user)
  {
  }

  /** What holds of an address holds of the rest of its page. */
  lemma AllCopyMore(mem: PT.Tables, root: nat, start: nat, i: nat, n: nat, user: bool)
    requires AllCopy(mem, root, start, i, user) && MayCopy(mem, root, start + i, user) && n <= PAGE - (start + i) % PAGE
    ensures AllCopy(mem, root, start, i + n, user)
  {
    forall va: nat | start + i <= va < start + i + n ensures MayCopy(mem, root, va, user) {
      assert va / PAGE == (start + i) / PAGE;
    }
  }

  ghost predicate AllLoad(mem: PT.Tables, root: nat, start: nat, n: nat) {
    forall va: nat {:trigger MayLoad(mem, root, va)} :: start <= va < start + n ==> MayLoad(mem, root, va)
  }

  lemma AllLoadMore(mem: PT.Tables, root: nat, start: nat, i: nat, n: nat)
    requires AllLoad(mem, root, start, i) && n <= PAGE - (start + i) % PAGE && (n > 0 ==> MayLoad(mem, root, start + i))
    ensures AllLoad(mem, root, start, i + n)
  {
    forall va: nat | start + i <= va < start + i + n ensures MayLoad(mem, root, va) {
      assert va / PAGE == (start + i) / PAGE;
    }
  }

  /** i bytes of the file and then j more. */
  lemma LoadedMore(mem: PT.Tables, root: nat, ram: Ram, ram1: Ram, ram': Ram, va: nat, file: seq<Byte>, offset: nat,
                   i: nat, next: nat, off: nat, j: nat)
    requires next == va + i && off == offset + i && (i > 0 ==> off <= |file|) && |FileBytes(file, off, j)| == j
    requires Written(mem, root, ram, ram1, va, FileBytes(file, offset, i))
    requires Written(mem, root, ram1, ram', next, FileBytes(file, off, j))
    requires AllLoad(mem, root, va, i) && j <= PAGE - next % PAGE && (j > 0 ==> MayLoad(mem, root, next))
    ensures Written(mem, root, ram, ram', va, FileBytes(file, offset, i + j)) && AllLoad(mem, root, va, i + j)
  {
    FileJoin(file, offset, i, j);
    WrittenMore(mem, root, ram, ram1, ram', va, FileBytes(file, offset, i), next, FileBytes(file, off, j));
    AllLoadMore(mem, root, va, i, j);
  }

  /** Reading on where a full read ended. */
  lemma FileJoin(file: seq<Byte>, offset: nat, i: nat, j: nat)
    requires (i > 0 ==> offset + i <= |file|) && |FileBytes(file, offset + i, j)| == j
    ensures |FileBytes(file, offset, i)| == i
    ensures FileBytes(file, offset, i) + FileBytes(file, offset + i, j) == FileBytes(file, offset, i + j)
  {
  }

  ghost predicate PoolOk(free: set<nat>, ram: Ram, own: map<nat, nat>) {
    forall f :: f in free ==> f != 0 && f in ram && |ram[f]| == PAGE && f !in own
  }

  /** The frames now belong to the pages from `first` on. */
  ghost function Claim(own: map<nat, nat>, first: nat, frames: seq<nat>): map<nat, nat> {
    if frames == [] then own
    else
      var n := |frames| - 1;
      Claim(own, first, frames[..n])[frames[n] := first + n]
  }

  lemma ClaimOther(own: map<nat, nat>, first: nat, frames: seq<nat>, f: nat)
    requires f !in frames
    ensures f in Claim(own, first, frames) <==> f in own
    ensures f in own ==> Claim(own, first, frames)[f] == own[f]
  {
    if frames != [] { ClaimOther(own, first, frames[..|frames| - 1], f); }
  }

  lemma ClaimAt(own: map<nat, nat>, first: nat, frames: seq<nat>, i: nat)
    requires i < |frames| && forall j :: i < j < |frames| ==> frames[i] != frames[j]
    ensures frames[i] in Claim(own, first, frames) && Claim(own, first, frames)[frames[i]] == first + i
  {
    var n := |frames| - 1;
    if i < n { ClaimAt(own, first, frames[..n], i); }
  }

  lemma ClaimKeys(own: map<nat, nat>, first: nat, frames: seq<nat>)
    ensures forall f :: f in Claim(own, first, frames) <==> f in own || f in frames
  {
    if frames != [] {
      var n := |frames| - 1;
      ClaimKeys(own, first, frames[..n]);
      assert frames == frames[..n] + [frames[n]];
    }
  }

  /** Every frame that was free still is, or is a table, or belongs to a page now. */
  ghost predicate NoneLost(free: set<nat>, tables: set<nat>, own: map<nat, nat>,
                           free': set<nat>, tables': set<nat>, own': map<nat, nat>) {
    && tables <= tables' && own.Keys <= own'.Keys
    && forall f :: f in free ==> f in free' || f in tables' || f in own'
  }

  /** Pages with frames from the pool are private. */
  lemma OwnMore(mem: PT.Tables, at: PT.Places, s: set<nat>, mem': PT.Tables, at': PT.Places, s': set<nat>, root: nat,
                first: nat,
                frames: seq<nat>, rights: PT.Rights, ram: Ram, own: map<nat, nat>, free: set<nat>, free': set<nat>)
    requires PT.Made(mem, at, s, mem', at', s', root, first, frames, rights) && PT.FromPool(frames, free, free', s')
    requires Private(mem, root, ram, own) && PoolOk(free, ram, own)
    ensures Private(mem', root, ram, Claim(own, first, frames)) && PoolOk(free', ram, Claim(own, first, frames))
    ensures forall i :: 0 <= i < |frames| ==> frames[i] != 0
  {
    var own' := Claim(own, first, frames);
    forall v: nat ensures Held(mem', root, ram, own', v) {
      assert Held(mem, root, ram, own, v);
      if InUser(v) {
        assert PT.Meet(mem', root, v) ==
          if first <= v < first + |frames|
            then PT.Look(Some(PT.Mapping(frames[v - first], rights)), PT.Meet(mem, root, v).inner, true)
          else PT.Meet(mem, root, v);
        if first <= v < first + |frames| {
          ClaimAt(own, first, frames, v - first);
        } else if PageOf(mem, root, v).Some? {
          ClaimOther(own, first, frames, PageOf(mem, root, v).value.frame);
        }
      }
    }
    forall f | f in free' ensures f !in own' { ClaimOther(own, first, frames, f); }
  }

  /** Outside these n pages everything is as it was. */
  ghost predicate Elsewhere(mem: PT.Tables, mem': PT.Tables, root: nat, ram: Ram, ram': Ram, first: nat, n: nat) {
    forall va: nat {:trigger ByteAt(mem', root, ram', va)} ::
      VA_MIN <= va < VA_MAX && !(first <= va / PAGE < first + n) ==>
        && ByteAt(mem', root, ram', va) == ByteAt(mem, root, ram, va)
        && PageOf(mem', root, va / PAGE) == PageOf(mem, root, va / PAGE)
  }

  /** Byte va of a segment is what the file or the zero fill says, and its page is open to
      user mode, writable iff the header says W and executable iff it says X. */
  ghost predicate ByteOk(mem: PT.Tables, root: nat, ram: Ram, start: nat, h: Header, file: seq<Byte>, va: nat)
    requires start <= va && (h.filesz > 0 ==> h.off % R.FOUR_GIB + h.filesz <= |file|)
  {
    && VA_MIN <= va < VA_MAX && PageOf(mem, root, va / PAGE).Some?
    && var rights := PageOf(mem, root, va / PAGE).value.rights;
    && rights.user && (rights.writable <==> h.Has(PF_W)) && (rights.noExec <==> !h.Has(PF_X))
    && ByteAt(mem, root, ram, va) == if va < start + h.filesz then file[h.off % R.FOUR_GIB + (va - start)] else 0
  }

  /** Memory holds the segment: filesz bytes of the file, then zeros. */
  ghost predicate Image(mem: PT.Tables, root: nat, ram: Ram, start: nat, h: Header, file: seq<Byte>) {
    && (h.filesz > 0 ==> h.off % R.FOUR_GIB + h.filesz <= |file|)
    && forall va: nat {:trigger ByteOk(mem, root, ram, start, h, file, va)} :: start <= va < start + h.memsz ==>
      ByteOk(mem, root, ram, start, h, file, va)
  }

  /** New pages change nothing outside them. */
  lemma Untouched(mem: PT.Tables, at: PT.Places, s: set<nat>, mem': PT.Tables, at': PT.Places, s': set<nat>, root: nat,
                  first: nat, frames: seq<nat>, rights: PT.Rights, ram: Ram, n: nat)
    requires PT.Made(mem, at, s, mem', at', s', root, first, frames, rights) && |frames| <= n
    ensures Elsewhere(mem, mem', root, ram, ram, first, n)
  {
    forall va: nat | VA_MIN <= va < VA_MAX && !(first <= va / PAGE < first + n)
      ensures PageOf(mem', root, va / PAGE) == PageOf(mem, root, va / PAGE)
    {
      assert PT.Meet(mem', root, va / PAGE) == PT.Meet(mem, root, va / PAGE);
    }
  }

  /** Every byte of the segment is on a page with its rights. */
  lemma GivenPages(mem: PT.Tables, at: PT.Places, s: set<nat>, mem': PT.Tables, at': PT.Places, s': set<nat>, root: nat,
                   first: nat, frames: seq<nat>, rights: PT.Rights, start: nat, filesz: nat, memsz: nat)
    requires PT.Made(mem, at, s, mem', at', s', root, first, frames, rights) && rights.user
    requires forall i :: 0 <= i < |frames| ==> frames[i] != 0
    requires first == start / PAGE && start + memsz <= (first + |frames|) * PAGE && filesz <= memsz
    ensures AllLoad(mem', root, start, memsz) && AllLoad(mem', root, start, filesz)
    ensures AllGiven(mem', root, start, memsz, rights)
    ensures AllCopy(mem', root, start + filesz, memsz - filesz, true) <==> memsz == filesz || rights.writable
  {
    forall va: nat | start <= va < start + memsz
      ensures MayLoad(mem', root, va) && (MayCopy(mem', root, va, true) <==> rights.writable)
      ensures Given(mem', root, va, rights)
    {
      OnePage(mem, at, s, mem', at', s', root, first, frames, rights, va / PAGE);
    }
    if memsz > filesz && !rights.writable { assert !MayCopy(mem', root, start + filesz, true); }
  }

  ghost predicate Given(mem: PT.Tables, root: nat, va: nat, rights: PT.Rights) {
    PageOf(mem, root, va / PAGE).Some? && PageOf(mem, root, va / PAGE).value.rights == rights
  }

  ghost predicate AllGiven(mem: PT.Tables, root: nat, start: nat, n: nat, rights: PT.Rights) {
    forall va: nat {:trigger Given(mem, root, va, rights)} :: start <= va < start + n ==> Given(mem, root, va, rights)
  }

  lemma OnePage(mem: PT.Tables, at: PT.Places, s: set<nat>, mem': PT.Tables, at': PT.Places, s': set<nat>, root: nat,
                first: nat, frames: seq<nat>, rights: PT.Rights, v: nat)
    requires PT.Made(mem, at, s, mem', at', s', root, first, frames, rights) && first <= v < first + |frames|
    ensures InUser(v) && PageOf(mem', root, v) == Some(PT.Mapping(frames[v - first], rights))
  {
    assert PT.Vacant(mem, root, v);
    assert PT.Meet(mem', root, v).found == Some(PT.Mapping(frames[v - first], rights));
  }

  /** Bytes written inside the pages leave the rest as it was. */
  lemma Apart(mem: PT.Tables, mem': PT.Tables, root: nat, ram: Ram, ram': Ram, start: nat, data: seq<Byte>, first: nat,
              n: nat)
    requires Elsewhere(mem, mem', root, ram, ram, first, n) && Written(mem', root, ram, ram', start, data)
    requires first == start / PAGE && start + |data| <= (first + n) * PAGE
    ensures Elsewhere(mem, mem', root, ram, ram', first, n)
  {
    forall va: nat | VA_MIN <= va < VA_MAX && !(first <= va / PAGE < first + n)
      ensures ByteAt(mem', root, ram', va) == ByteAt(mem, root, ram, va)
      ensures PageOf(mem', root, va / PAGE) == PageOf(mem, root, va / PAGE)
    {
      assert ByteAt(mem', root, ram, va) == ByteAt(mem, root, ram, va);
    }
  }

  lemma Imaged(mem: PT.Tables, root: nat, ram: Ram, ram': Ram, start: nat, h: Header, file: seq<Byte>, data: seq<Byte>)
    requires Written(mem, root, ram, ram', start, data) && AllLoad(mem, root, start, h.memsz)
    requires AllGiven(mem, root, start, h.memsz, RightsOf(h.flags))
    requires h.filesz <= h.memsz == |data|
    requires data == FileBytes(file, h.off % R.FOUR_GIB, h.filesz) + Zeros(h.memsz - h.filesz)
    ensures Image(mem, root, ram', start, h, file)
  {
    var off := h.off % R.FOUR_GIB;
    assert |FileBytes(file, off, h.filesz)| == h.filesz;
    forall va: nat | start <= va < start + h.memsz ensures ByteOk(mem, root, ram', start, h, file, va) {
      assert MayLoad(mem, root, va) && Given(mem, root, va, RightsOf(h.flags));
      assert ByteAt(mem, root, ram', va) == data[va - start];
    }
  }

  /** What makes proc_exec give up on a segment. */
  ghost predicate Wrong(h: Header, bias: nat, file: seq<Byte>) {
    || h.memsz < h.filesz || h.vaddr + bias < VA_MIN
    || (h.filesz > 0 && h.off % R.FOUR_GIB + h.filesz > |file|) || (h.memsz > h.filesz && !h.Has(PF_W))
  }

  ghost predicate AnyWrong(headers: seq<Header>, bias: nat, file: seq<Byte>) {
    exists i :: 0 <= i < |headers| && headers[i].Loads() && Wrong(headers[i], bias, file)
  }

  /** The segment ends at least a page below 4 GiB. */
  ghost predicate Low(h: Header, bias: nat) {
    h.vaddr + bias + h.memsz <= R.FOUR_GIB - PAGE
  }

  /** There the rounding is exact: the pages are those the segment touches. */
  lemma Extent(h: Header, bias: nat) returns (n: nat)
    requires Low(h, bias)
    ensures var start := (h.vaddr + bias) % R.WORD;
      var mapStart := R.RoundDown(start);
      var mapOffset := (start + R.WORD - mapStart) % R.WORD;
      && start == h.vaddr + bias && mapStart + mapOffset == start && mapStart == start / PAGE * PAGE
      && R.RoundUp(mapOffset + h.memsz) == n * PAGE && start + h.memsz <= (start / PAGE + n) * PAGE <= R.FOUR_GIB
    ensures n == 0 ==> h.memsz == 0
  {
    var start := h.vaddr + bias;
    RoundDownIs(start);
    var b := start % PAGE + h.memsz;
    assert b + PAGE - 1 < R.FOUR_GIB;
    RoundDownIs(b + PAGE - 1);
    n := (b + PAGE - 1) / PAGE;
  }

  ghost predicate Images(mem: PT.Tables, root: nat, ram: Ram, headers: seq<Header>, bias: nat, file: seq<Byte>) {
    forall i :: 0 <= i < |headers| && headers[i].Loads() ==>
      Image(mem, root, ram, headers[i].vaddr + bias, headers[i], file)
  }

  ghost predicate SameByte(mem: PT.Tables, mem': PT.Tables, root: nat, ram: Ram, ram': Ram, va: nat) {
    ByteAt(mem', root, ram', va) == ByteAt(mem, root, ram, va)
      && PageOf(mem', root, va / PAGE) == PageOf(mem, root, va / PAGE)
  }

  /** Whatever was mapped is still mapped there, with the same content. */
  ghost predicate MappedKept(mem: PT.Tables, mem': PT.Tables, root: nat, ram: Ram, ram': Ram) {
    forall va: nat {:trigger SameByte(mem, mem', root, ram, ram', va)} ::
      VA_MIN <= va < VA_MAX && PageOf(mem, root, va / PAGE).Some? ==> SameByte(mem, mem', root, ram, ram', va)
  }

  lemma KeptMapped(mem: PT.Tables, mem': PT.Tables, root: nat, ram: Ram, ram': Ram, first: nat, n: nat)
    requires Elsewhere(mem, mem', root, ram, ram', first, n) && PT.Unmapped(mem, root, first, n)
    ensures MappedKept(mem, mem', root, ram, ram')
  {
    forall va: nat | VA_MIN <= va < VA_MAX && PageOf(mem, root, va / PAGE).Some?
      ensures SameByte(mem, mem', root, ram, ram', va)
    {
      assert first <= va / PAGE < first + n ==> PT.Vacant(mem, root, va / PAGE);
      assert ByteAt(mem', root, ram', va) == ByteAt(mem, root, ram, va);
    }
  }

  lemma KeptTwice(mem: PT.Tables, mem1: PT.Tables, mem': PT.Tables, root: nat, ram: Ram, ram1: Ram, ram': Ram)
    requires MappedKept(mem, mem1, root, ram, ram1) && MappedKept(mem1, mem', root, ram1, ram')
    ensures MappedKept(mem, mem', root, ram, ram')
  {
    forall va: nat | VA_MIN <= va < VA_MAX && PageOf(mem, root, va / PAGE).Some?
      ensures SameByte(mem, mem', root, ram, ram', va)
    {
      assert SameByte(mem, mem1, root, ram, ram1, va);
      assert SameByte(mem1, mem', root, ram1, ram', va);
    }
  }

  lemma ImageKept(mem: PT.Tables, mem': PT.Tables, root: nat, ram: Ram, ram': Ram, start: nat, h: Header,
                  file: seq<Byte>)
    requires MappedKept(mem, mem', root, ram, ram') && Image(mem, root, ram, start, h, file)
    ensures Image(mem', root, ram', start, h, file)
  {
    forall va: nat | start <= va < start + h.memsz ensures ByteOk(mem', root, ram', start, h, file, va) {
      assert ByteOk(mem, root, ram, start, h, file, va);
      assert SameByte(mem, mem', root, ram, ram', va);
    }
  }
}
