// One device behind the cache.  File-system code takes a block, looks at it or
// changes it, and gives it back; seen from outside that is reading and writing
// a plain sequence of blocks, whatever is cached or evicted meanwhile.

module Volumes {
  import opened Links
  import opened BufferPool
  import opened BufferCache
  import opened Blocks

  // Take the block k, perhaps change it, and give it back.
  ghost function Session(p: Pool, k: Key, mode: Mode, edit: bool, data: Block, how: Release): (r: Pool)
    requires Shape(p) && CanGet(p, k)
  {
    var (q, b) := Get(p, k, mode);
    Put(if edit then Edit(q, b, data) else q, b, how)
  }

  // Between sessions nobody holds a block he has yet to overwrite, and there
  // is a free buffer.
  ghost predicate Rested(p: Pool) {
    match p
    case Pool(bufs, _, _, _) => Shape(p) && Coherent(p) && NoBlanks(p) && BufsInUse(p) < |bufs|
  }

  lemma SessionKeeps(p: Pool, k: Key, mode: Mode, edit: bool, data: Block, how: Release)
    requires Rested(p) && (edit || mode == Normal) && (how.zuper ==> how.writeImmed)
    ensures CanGet(p, k)
    ensures var r := Session(p, k, mode, edit, data, how);
      && Rested(r) && |r.bufs| == |p.bufs|
      && forall k' :: View(r, k') == if edit && k' == k && k.dev != NO_DEV then data else View(p, k')
  {
    var (q, b) := Get(p, k, mode);
    SessionGet(p, k, mode);
    SessionCount(p, k, mode, edit, data, how);
    if edit {
      EditKeeps(q, b, data);
      PutKeeps(Edit(q, b, data), b, how);
      PutFrame(Edit(q, b, data), b, how);
    } else {
      PutKeeps(q, b, how);
      PutFrame(q, b, how);
    }
  }

  // The first third of a session.
  lemma SessionGet(p: Pool, k: Key, mode: Mode)
    requires Rested(p)
    ensures CanGet(p, k)
    ensures var (q, b) := Get(p, k, mode);
      && Shape(q) && Coherent(q) && KeyOf(q.bufs[b]) == k && q.bufs[b].count > 0
      && (forall a :: 0 <= a < |q.bufs| && a != b ==> !q.bufs[a].blank) && (mode == Normal ==> !q.bufs[b].blank)
      && (forall k' :: k' != k || mode == Normal || k.dev == NO_DEV ==> View(q, k') == View(p, k'))
  {
    GetKeeps(p, k, mode);
    GetFrame(p, k, mode);
  }

  // Every session ends with as many buffers in use as it began with.
  lemma SessionCount(p: Pool, k: Key, mode: Mode, edit: bool, data: Block, how: Release)
    requires Shape(p) && CanGet(p, k)
    ensures var r := Session(p, k, mode, edit, data, how);
      |r.bufs| == |p.bufs| && BufsInUse(r) == BufsInUse(p)
  {
    var (q, b) := Get(p, k, mode);
    var e := if edit then Edit(q, b, data) else q;
    GetFrame(p, k, mode);
    PutFrame(e, b, how);
    var f := Put(e, b, how).bufs[b];
    assert Put(e, b, how).bufs == p.bufs[b := f];
    InUseUpdate(p.bufs, b, f);
  }

  class Volume {
    const cache: BufferCache
    const dev: int
    // The current contents of the blocks of the device.
    ghost var store: seq<Block>

    // The objects that make it up.
    ghost function Repr(): set<object> {
      {this, cache, cache.buf, cache.bNext, cache.bPrev, cache.bHash, cache.bufHash}
    }

    ghost predicate Valid()
      reads Repr()
    {
      && dev != NO_DEV && cache.Valid() && Rested(cache.Abs())
      && forall b :: 0 <= b < |store| ==> View(cache.Abs(), Key(dev, b)) == store[b]
    }

    // A device just mounted on a fresh cache.
    constructor (dev: int, disk: Disk, blocks: nat, nrBufs: nat, hashSize: nat)
      requires dev != NO_DEV && nrBufs > 0 && hashSize > 0
      ensures Valid() && fresh(Repr()) && this.dev == dev
      ensures store == seq(blocks, b requires 0 <= b < blocks => DiskAt(disk, Key(dev, b)))
    {
      this.dev := dev;
      cache := new BufferCache(nrBufs, hashSize, disk);
      store := seq(blocks, b requires 0 <= b < blocks => DiskAt(disk, Key(dev, b)));
      new;
      NoneInUse(cache.buf[..]);
      forall b | 0 <= b < blocks ensures View(cache.Abs(), Key(dev, b)) == store[b] {
        ViewOfDisk(cache.Abs(), Key(dev, b));
      }
    }

    method Take(k: Key, mode: Mode) returns (b: nat)
      requires cache.Valid() && Rested(cache.Abs())
      modifies Repr() - {this}
      ensures cache.Valid() && b < cache.buf.Length && CanGet(old(cache.Abs()), k)
      ensures (cache.Abs(), b) == Get(old(cache.Abs()), k, mode)
      ensures mode == Normal && k.dev != NO_DEV ==> cache.buf[b].data == View(old(cache.Abs()), k)
    {
      SessionGet(cache.Abs(), k, mode);
      GetKeeps(cache.Abs(), k, mode);
      var got := cache.GetBlock(k, mode);
      b := got.b;
    }

    // Give back block k, taken from the cache p, with the given contents.
    method GiveBack(ghost p: Pool, ghost k: Key, ghost mode: Mode, b: nat, data: Block, how: Release)
      requires Rested(p) && CanGet(p, k) && cache.Valid() && (cache.Abs(), b) == Get(p, k, mode) && !how.zuper
      modifies Repr() - {this}
      ensures cache.Valid() && Rested(cache.Abs())
      ensures forall k' :: View(cache.Abs(), k') == if k' == k && k.dev != NO_DEV then data else View(p, k')
    {
      SessionKeeps(p, k, mode, true, data, how);
      GetKeeps(p, k, mode);
      cache.EditBlock(b, data);
      cache.PutBlock(b, how);
    }

    // get_block(NORMAL), look, put_block()
    method ReadBlock(b: nat, how: Release) returns (data: Block)
      requires Valid() && b < |store| && !how.zuper
      modifies Repr() - {this}
      ensures Valid() && data == store[b]
    {
      var k := Key(dev, b);
      SessionKeeps(cache.Abs(), k, Normal, false, [], how);
      GetKeeps(cache.Abs(), k, Normal);
      var got := cache.GetBlock(k, Normal);
      data := cache.buf[got.b].data;
      cache.PutBlock(got.b, how);
    }

    // get_block(NO_READ), overwrite all of it, put_block()
    method WriteWhole(b: nat, data: Block, how: Release)
      requires Valid() && b < |store| && !how.zuper
      modifies Repr()
      ensures Valid() && store == old(store)[b := data]
    {
      var k := Key(dev, b);
      ghost var p := cache.Abs();
      var bp := Take(k, NoRead);
      GiveBack(p, k, NoRead, bp, data, how);
      store := store[b := data];
    }

    // get_block(NORMAL), overwrite part of it, put_block()
    method WritePart(b: nat, off: nat, data: seq<int>, how: Release)
      requires Valid() && b < |store| && !how.zuper && off + |data| <= |store[b]|
      modifies Repr()
      ensures Valid() && store == old(store)[b := Patch(old(store)[b], off, data)]
    {
      var k := Key(dev, b);
      ghost var p := cache.Abs();
      var bp := Take(k, Normal);
      var whole := Patch(cache.buf[bp].data, off, data);
      GiveBack(p, k, Normal, bp, whole, how);
      store := store[b := whole];
    }

    // A buffer of no device, to read zeros from.
    method ReadHole(bs: nat, how: Release) returns (data: Block)
      requires Valid() && !how.zuper
      modifies Repr() - {this}
      ensures Valid() && data == Zeros(bs)
    {
      var k := Key(NO_DEV, NO_BLOCK);
      ghost var p := cache.Abs();
      var bp := Take(k, Normal);
      data := Zeros(bs);
      GiveBack(p, k, Normal, bp, data, how);
    }
  }
}
