// The write-back block cache as a pool of buffers over a disk.  Eviction order,
// dirty flags and use counts are as in cache.c; the point is what a client can
// see: the current contents of every block of every device.

module BufferPool {
  import opened Links
  import opened Blocks

  const NO_DEV: int := 0xFFFF

  datatype Key = Key(dev: int, block: nat)

  // Contents of the devices.  A block never written holds [].
  type Disk = map<Key, Block>

  function DiskAt(disk: Disk, k: Key): Block {
    if k in disk then disk[k] else []
  }

  // blank: acquired without reading, for a caller that overwrites all of it.
  datatype Buf = Buf(dev: int, block: nat, dirt: bool, count: int, blank: bool, data: Block)

  // lru lists the buffers from the least to the most recently released one.
  // reserved is the part of bufs_in_use that stands for no buffer:
  // load_bit_maps() counts the map blocks a second time.
  datatype Pool = Pool(bufs: seq<Buf>, lru: seq<int>, reserved: nat, disk: Disk)

  // How a block is asked for, and how it is given back (zuper: a super block).
  datatype Mode = Normal | NoRead
  datatype Release = Release(writeImmed: bool, oneShot: bool, zuper: bool)

  const INDIRECT_BLOCK := Release(true, false, false)
  const FULL_DATA_BLOCK := Release(false, false, false)
  const PARTIAL_DATA_BLOCK := Release(false, false, false)

  predicate Holds(b: Buf, k: Key) {
    b.dev == k.dev && b.block == k.block
  }

  ghost predicate Shape(p: Pool) {
    && NoDup(p.lru)
    && (forall b :: b in p.lru <==> 0 <= b < |p.bufs|)
    && (forall b :: 0 <= b < |p.bufs| ==> p.bufs[b].count >= 0)
  }

  // At most one buffer holds a given block of a device.
  ghost predicate OnePlace(p: Pool) {
    forall a, b :: 0 <= a < b < |p.bufs| && p.bufs[a].dev == p.bufs[b].dev && p.bufs[a].dev != NO_DEV
      ==> p.bufs[a].block != p.bufs[b].block
  }

  // Besides, a clean buffer that has been read or written agrees with the
  // disk, and blank buffers are in use.
  ghost predicate Coherent(p: Pool) {
    && OnePlace(p)
    && (forall b :: 0 <= b < |p.bufs| && p.bufs[b].dev != NO_DEV && !p.bufs[b].dirt && !p.bufs[b].blank
          ==> p.bufs[b].data == DiskAt(p.disk, KeyOf(p.bufs[b])))
    && (forall b :: 0 <= b < |p.bufs| && p.bufs[b].blank ==> p.bufs[b].count > 0)
  }

  function KeyOf(b: Buf): Key {
    Key(b.dev, b.block)
  }

  function InUse(bufs: seq<Buf>): (n: nat)
    ensures n <= |bufs|
  {
    if bufs == [] then 0 else (if bufs[0].count > 0 then 1 else 0) + InUse(bufs[1..])
  }

  // The buffer that holds k, or |bufs|.
  function Find(bufs: seq<Buf>, k: Key): (i: nat)
    ensures i <= |bufs|
    ensures i < |bufs| ==> Holds(bufs[i], k)
    ensures forall j :: 0 <= j < i ==> !Holds(bufs[j], k)
  {
    if bufs == [] then 0 else if Holds(bufs[0], k) then 0 else 1 + Find(bufs[1..], k)
  }

  // What a client can see of block k.
  function View(p: Pool, k: Key): Block {
    var i := Find(p.bufs, k);
    if k.dev != NO_DEV && i < |p.bufs| then p.bufs[i].data else DiskAt(p.disk, k)
  }

  // ---------------------------------------------------------------------
  // The operations of cache.c

  // rw_block(WRITING)
  function WriteBack(p: Pool, b: nat): (r: Pool)
    requires b < |p.bufs|
  {
    var f := p.bufs[b];
    var disk := if f.dev != NO_DEV then p.disk[KeyOf(f) := f.data] else p.disk;
    p.(disk := disk, bufs := p.bufs[b := f.(dirt := false)])
  }

  // The first free buffer of the list, or |lru|.
  function FirstFree(bufs: seq<Buf>, lru: seq<int>): (i: nat)
    requires forall j :: 0 <= j < |lru| ==> 0 <= lru[j] < |bufs|
    ensures i <= |lru|
    ensures i < |lru| ==> bufs[lru[i]].count <= 0
    ensures forall j :: 0 <= j < i ==> bufs[lru[j]].count > 0
  {
    if lru == [] then 0
    else if bufs[lru[0]].count <= 0 then 0
    else 1 + FirstFree(bufs, lru[1..])
  }

  // The least recently released free buffer.
  ghost function Victim(p: Pool): (b: nat)
    requires Shape(p) && InUse(p.bufs) < |p.bufs|
    ensures b < |p.bufs| && p.bufs[b].count == 0
  {
    SomeFree(p);
    p.lru[FirstFree(p.bufs, p.lru)]
  }

  // Give a free buffer to (dev, block), writing back what it held.
  function Reassign(p: Pool, b: nat, k: Key, mode: Mode): (r: Pool)
    requires b < |p.bufs|
  {
    var p1 := if p.bufs[b].dirt && p.bufs[b].dev != NO_DEV then WriteBack(p, b) else p;
    var f := p1.bufs[b].(dev := k.dev, block := k.block, count := p1.bufs[b].count + 1);
    p1.(bufs := p1.bufs[b :=
      if k.dev == NO_DEV then f
      else if mode == Normal then f.(data := DiskAt(p1.disk, k), dirt := false)
      else f.(blank := true)])
  }

  // get_block()
  ghost function Get(p: Pool, k: Key, mode: Mode): (r: (Pool, nat))
    requires Shape(p) && CanGet(p, k)
    ensures r.1 < |r.0.bufs| == |p.bufs|
  {
    if Cached(p, k) then
      var i := Find(p.bufs, k);
      (p.(bufs := p.bufs[i := p.bufs[i].(count := p.bufs[i].count + 1)]), i)
    else
      (Reassign(p, Victim(p), k, mode), Victim(p))
  }

  predicate Cached(p: Pool, k: Key) {
    k.dev != NO_DEV && Find(p.bufs, k) < |p.bufs|
  }

  function BufsInUse(p: Pool): nat {
    InUse(p.bufs) + p.reserved
  }

  // When get_block() does not panic.  A hit is never refused, so with reserved
  // buffers the counter can pass the table size; the test is for equality.
  predicate CanGet(p: Pool, k: Key) {
    Cached(p, k) || (BufsInUse(p) != |p.bufs| && InUse(p.bufs) < |p.bufs|)
  }

  function Relinked(lru: seq<int>, b: int, oneShot: bool): seq<int> {
    if oneShot then [b] + Remove(lru, b) else Remove(lru, b) + [b]
  }

  // put_block()
  function Put(p: Pool, b: nat, how: Release): (r: Pool)
    requires b < |p.bufs|
    ensures |r.bufs| == |p.bufs|
  {
    var f := p.bufs[b].(count := p.bufs[b].count - 1);
    var p1 := p.(bufs := p.bufs[b := f]);
    if f.count > 0 then p1
    else
      var p2 := p1.(lru := Relinked(p.lru, b, how.oneShot));
      var p3 := if how.writeImmed && f.dirt && f.dev != NO_DEV then WriteBack(p2, b) else p2;
      if how.zuper then p3.(bufs := p3.bufs[b := p3.bufs[b].(dev := NO_DEV)]) else p3
  }

  // What buf_pool() leaves.
  function Fresh(n: nat, disk: Disk): (p: Pool)
    ensures |p.bufs| == n
  {
    Pool(seq(n, i => Buf(NO_DEV, 0, false, 0, false, [])), seq(n, i => i), 0, disk)
  }

  lemma FreshOk(n: nat, disk: Disk)
    ensures Shape(Fresh(n, disk)) && Coherent(Fresh(n, disk)) && InUse(Fresh(n, disk).bufs) == 0
  {
    var p := Fresh(n, disk);
    forall b | 0 <= b < n ensures b in p.lru {
      assert p.lru[b] == b;
    }
    NoneInUse(p.bufs);
  }

  lemma {:induction false} NoneInUse(bufs: seq<Buf>)
    requires forall b :: 0 <= b < |bufs| ==> bufs[b].count <= 0
    ensures InUse(bufs) == 0
  {
    if bufs != [] {
      NoneInUse(bufs[1..]);
    }
  }

  // A holder changes the contents of his buffer and marks it dirty.
  function Edit(p: Pool, b: nat, data: Block): (r: Pool)
    requires b < |p.bufs|
    ensures |r.bufs| == |p.bufs|
  {
    p.(bufs := p.bufs[b := p.bufs[b].(data := data, dirt := true, blank := false)])
  }

  // ---------------------------------------------------------------------
  // Use counts

  lemma {:induction false} InUseUpdate(bufs: seq<Buf>, b: nat, f: Buf)
    requires b < |bufs|
    ensures InUse(bufs[b := f]) ==
      InUse(bufs) - (if bufs[b].count > 0 then 1 else 0) + (if f.count > 0 then 1 else 0)
  {
    if b > 0 {
      assert bufs[b := f][1..] == bufs[1..][b - 1 := f];
      InUseUpdate(bufs[1..], b - 1, f);
    } else {
      assert bufs[b := f][1..] == bufs[1..];
    }
  }

  lemma {:induction false} AllInUse(bufs: seq<Buf>)
    requires forall b :: 0 <= b < |bufs| ==> bufs[b].count > 0
    ensures InUse(bufs) == |bufs|
  {
    if bufs != [] {
      AllInUse(bufs[1..]);
    }
  }

  // While fewer than all buffers are in use, the eviction scan ends at a free
  // one, so "No free buffer" cannot happen.
  lemma SomeFree(p: Pool)
    requires Shape(p) && InUse(p.bufs) < |p.bufs|
    ensures forall j :: 0 <= j < |p.lru| ==> 0 <= p.lru[j] < |p.bufs|
    ensures FirstFree(p.bufs, p.lru) < |p.lru|
  {
    forall j | 0 <= j < |p.lru| ensures 0 <= p.lru[j] < |p.bufs| {
      assert p.lru[j] in p.lru;
    }
    if FirstFree(p.bufs, p.lru) == |p.lru| {
      forall b | 0 <= b < |p.bufs| ensures p.bufs[b].count > 0 {
        assert b in p.lru;
        var j :| 0 <= j < |p.lru| && p.lru[j] == b;
      }
      AllInUse(p.bufs);
      assert false;
    }
  }

  // ---------------------------------------------------------------------
  // Every operation keeps the pool in shape

  lemma GetShape(p: Pool, k: Key, mode: Mode)
    requires Shape(p) && CanGet(p, k)
    ensures Shape(Get(p, k, mode).0)
  {
    var r := Get(p, k, mode).0;
    var i := Get(p, k, mode).1;
    assert r.bufs == p.bufs[i := r.bufs[i]];
  }

  // A get touches one buffer, and counts one more user for it.
  lemma GetFrame(p: Pool, k: Key, mode: Mode)
    requires Shape(p) && CanGet(p, k)
    ensures var (q, b) := Get(p, k, mode);
      && q.bufs == p.bufs[b := q.bufs[b]] && q.bufs[b].count == p.bufs[b].count + 1
      && q.reserved == p.reserved && |q.bufs| == |p.bufs|
  {
    var (q, b) := Get(p, k, mode);
    if Cached(p, k) {
    } else {
      var p1 := if p.bufs[b].dirt && p.bufs[b].dev != NO_DEV then WriteBack(p, b) else p;
      assert p1.bufs == p.bufs[b := p1.bufs[b]];
      assert q.bufs == p1.bufs[b := q.bufs[b]];
    }
  }

  // So a get takes at most one more buffer into use.
  lemma GetCounts(p: Pool, k: Key, mode: Mode)
    requires Shape(p) && CanGet(p, k)
    ensures var (q, b) := Get(p, k, mode);
      && InUse(q.bufs) == InUse(p.bufs) + (if p.bufs[b].count > 0 then 0 else 1)
      && q.reserved == p.reserved && |q.bufs| == |p.bufs| && q.lru == p.lru
  {
    var (q, b) := Get(p, k, mode);
    GetFrame(p, k, mode);
    InUseUpdate(p.bufs, b, q.bufs[b]);
  }

  // A put touches one buffer, and counts one user fewer.
  lemma PutFrame(p: Pool, b: nat, how: Release)
    requires b < |p.bufs|
    ensures var r := Put(p, b, how);
      && r.bufs == p.bufs[b := r.bufs[b]] && r.bufs[b].count == p.bufs[b].count - 1
      && r.bufs[b].blank == p.bufs[b].blank && r.reserved == p.reserved
  {}

  lemma RelinkedMembers(lru: seq<int>, b: int, oneShot: bool)
    requires NoDup(lru) && b in lru
    ensures NoDup(Relinked(lru, b, oneShot))
    ensures forall x :: x in Relinked(lru, b, oneShot) <==> x in lru
  {
    RemoveMembers(lru, b);
  }

  lemma PutShape(p: Pool, b: nat, how: Release)
    requires Shape(p) && b < |p.bufs| && p.bufs[b].count > 0
    ensures Shape(Put(p, b, how))
  {
    var r := Put(p, b, how);
    assert r.bufs == p.bufs[b := r.bufs[b]];
    RelinkedMembers(p.lru, b, how.oneShot);
  }

  // ---------------------------------------------------------------------
  // Coherence

  lemma FindUnique(p: Pool, b: nat)
    requires OnePlace(p) && b < |p.bufs| && p.bufs[b].dev != NO_DEV
    ensures Find(p.bufs, KeyOf(p.bufs[b])) == b
  {}

  // The view of a block depends only on the buffer that holds it, if any.
  lemma ViewOfBuffer(p: Pool, b: nat, k: Key)
    requires Coherent(p) && b < |p.bufs| && Holds(p.bufs[b], k) && k.dev != NO_DEV
    ensures View(p, k) == p.bufs[b].data
  {
    FindUnique(p, b);
  }

  lemma ViewOfDisk(p: Pool, k: Key)
    requires k.dev == NO_DEV || forall b :: 0 <= b < |p.bufs| ==> !Holds(p.bufs[b], k)
    ensures View(p, k) == DiskAt(p.disk, k)
  {}

  // Writing a block back changes neither what anybody sees nor which buffer
  // holds what.
  lemma WriteBackKeeps(p: Pool, b: nat)
    requires Coherent(p) && b < |p.bufs| && !p.bufs[b].blank
    ensures Coherent(WriteBack(p, b))
    ensures forall k :: View(WriteBack(p, b), k) == View(p, k)
  {
    forall k ensures View(WriteBack(p, b), k) == View(p, k) {
      WriteBackShows(p, b, k);
    }
  }

  lemma WriteBackShows(p: Pool, b: nat, k: Key)
    requires Coherent(p) && b < |p.bufs|
    ensures View(WriteBack(p, b), k) == View(p, k)
  {
    SameFind(p.bufs, WriteBack(p, b).bufs, k);
    if k == KeyOf(p.bufs[b]) && k.dev != NO_DEV {
      FindUnique(p, b);
    }
  }

  lemma {:induction false} SameFind(bufs: seq<Buf>, bufs': seq<Buf>, k: Key)
    requires |bufs'| == |bufs|
    requires forall b :: 0 <= b < |bufs| ==> Holds(bufs'[b], k) == Holds(bufs[b], k)
    ensures Find(bufs', k) == Find(bufs, k)
  {
    if bufs != [] {
      assert forall b :: 0 <= b < |bufs[1..]| ==> bufs[1..][b] == bufs[b + 1] && bufs'[1..][b] == bufs'[b + 1];
      SameFind(bufs[1..], bufs'[1..], k);
    }
  }

  // Changing one buffer in place moves no other block.
  lemma ViewElsewhere(p: Pool, r: Pool, b: nat, k: Key)
    requires Coherent(p) && Coherent(r) && b < |p.bufs| == |r.bufs|
    requires forall a :: 0 <= a < |p.bufs| && a != b ==>
               r.bufs[a].dev == p.bufs[a].dev && r.bufs[a].block == p.bufs[a].block && r.bufs[a].data == p.bufs[a].data
    requires DiskAt(r.disk, k) == DiskAt(p.disk, k)
    requires k.dev != NO_DEV ==> !Holds(r.bufs[b], k)
    requires k.dev != NO_DEV && Holds(p.bufs[b], k) ==> p.bufs[b].data == DiskAt(p.disk, k)
    ensures View(r, k) == View(p, k)
  {
    if k.dev != NO_DEV {
      var i := Find(p.bufs, k);
      if i < |p.bufs| && i != b {
        ViewOfBuffer(r, i, k);
      } else if i == b {
        assert forall a :: 0 <= a < |p.bufs| && a != b ==> !Holds(p.bufs[a], k);
        ViewOfDisk(r, k);
      } else {
        ViewOfDisk(r, k);
      }
    }
  }

  lemma ReassignKeeps(p: Pool, b: nat, k: Key, mode: Mode)
    requires Coherent(p) && b < |p.bufs| && p.bufs[b].count == 0
    requires k.dev != NO_DEV ==> forall a :: 0 <= a < |p.bufs| ==> !Holds(p.bufs[a], k)
    ensures var r := Reassign(p, b, k, mode);
      && Coherent(r) && |r.bufs| == |p.bufs| && Holds(r.bufs[b], k) && r.bufs[b].count == 1
      && (forall k' :: k' != k || k.dev == NO_DEV || mode == Normal ==> View(r, k') == View(p, k'))
      && (k.dev != NO_DEV && mode == Normal ==> r.bufs[b].data == View(p, k))
  {
    var p1 := if p.bufs[b].dirt && p.bufs[b].dev != NO_DEV then WriteBack(p, b) else p;
    if p.bufs[b].dirt && p.bufs[b].dev != NO_DEV {
      WriteBackKeeps(p, b);
    }
    var r := Reassign(p, b, k, mode);
    assert Coherent(r);
    forall k' | k' != k || k.dev == NO_DEV || mode == Normal ensures View(r, k') == View(p, k') {
      assert View(p1, k') == View(p, k');
      if k' == k && k.dev != NO_DEV {
        ViewOfBuffer(r, b, k);
        ViewOfDisk(p1, k);
      } else {
        ViewElsewhere(p1, r, b, k');
      }
    }
    if k.dev != NO_DEV && mode == Normal {
      ViewOfBuffer(r, b, k);
    }
  }

  // get_block(): the buffer returned holds the block, with its current
  // contents unless the caller said he would overwrite it; the current
  // contents of every other block, the one evicted included, stay the same.
  lemma GetKeeps(p: Pool, k: Key, mode: Mode)
    requires Shape(p) && Coherent(p) && CanGet(p, k)
    ensures var (r, i) := Get(p, k, mode);
      && Shape(r) && Coherent(r) && Holds(r.bufs[i], k) && r.bufs[i].count > 0
      && (forall k' :: k' != k || k.dev == NO_DEV || mode == Normal || Cached(p, k) ==> View(r, k') == View(p, k'))
      && (k.dev != NO_DEV && (mode == Normal || Cached(p, k)) ==> r.bufs[i].data == View(p, k))
  {
    GetShape(p, k, mode);
    var (r, i) := Get(p, k, mode);
    if Cached(p, k) {
      forall k' ensures View(r, k') == View(p, k') {
        SameFind(p.bufs, r.bufs, k');
      }
    } else {
      ReassignKeeps(p, i, k, mode);
    }
  }

  // When a get takes the counter past the number of buffers: exactly when all
  // are counted and the block is cached in a free buffer.
  lemma CounterPasses(p: Pool, k: Key, mode: Mode)
    requires Shape(p) && CanGet(p, k) && BufsInUse(p) <= |p.bufs|
    ensures BufsInUse(Get(p, k, mode).0) > |p.bufs| <==>
            BufsInUse(p) == |p.bufs| && Cached(p, k) && p.bufs[Find(p.bufs, k)].count == 0
    ensures BufsInUse(Get(p, k, mode).0) <= |p.bufs| + 1
  {
    GetCounts(p, k, mode);
  }

  // A put lowers the counter when it is the last of its buffer.
  lemma PutCounts(p: Pool, b: nat, how: Release)
    requires Shape(p) && b < |p.bufs| && p.bufs[b].count > 0
    ensures BufsInUse(Put(p, b, how)) == BufsInUse(p) - if p.bufs[b].count == 1 then 1 else 0
  {
    PutFrame(p, b, how);
    InUseUpdate(p.bufs, b, Put(p, b, how).bufs[b]);
  }

  // A block that is not cached is refused although a buffer is free, exactly
  // while the counter is the number of buffers: past it, and below it, not.
  lemma RefusedIff(p: Pool, k: Key)
    requires Shape(p) && !Cached(p, k) && InUse(p.bufs) < |p.bufs|
    ensures !CanGet(p, k) <==> BufsInUse(p) == |p.bufs|
  {}

  // Counting one use fewer and moving along the list show nothing.
  lemma LowerKeeps(p: Pool, b: nat, lru: seq<int>)
    requires Coherent(p) && b < |p.bufs| && !p.bufs[b].blank
    ensures var r := p.(bufs := p.bufs[b := p.bufs[b].(count := p.bufs[b].count - 1)], lru := lru);
      Coherent(r) && forall k :: View(r, k) == View(p, k)
  {
    var r := p.(bufs := p.bufs[b := p.bufs[b].(count := p.bufs[b].count - 1)], lru := lru);
    forall k ensures View(r, k) == View(p, k) {
      SameFind(p.bufs, r.bufs, k);
    }
  }

  // Dropping a clean block shows nothing.
  lemma DropKeeps(p: Pool, b: nat)
    requires Coherent(p) && b < |p.bufs| && !p.bufs[b].blank && (p.bufs[b].dirt ==> p.bufs[b].dev == NO_DEV)
    ensures var r := p.(bufs := p.bufs[b := p.bufs[b].(dev := NO_DEV)]);
      Coherent(r) && forall k :: View(r, k) == View(p, k)
  {
    var r := p.(bufs := p.bufs[b := p.bufs[b].(dev := NO_DEV)]);
    forall k ensures View(r, k) == View(p, k) {
      ViewElsewhere(p, r, b, k);
    }
  }

  // put_block(): nobody sees a difference, even when the block is dropped.
  lemma PutKeeps(p: Pool, b: nat, how: Release)
    requires Shape(p) && Coherent(p) && b < |p.bufs| && p.bufs[b].count > 0 && !p.bufs[b].blank
    requires how.zuper ==> how.writeImmed
    ensures var r := Put(p, b, how);
      Shape(r) && Coherent(r) && forall k :: View(r, k) == View(p, k)
  {
    PutShape(p, b, how);
    var f := p.bufs[b].(count := p.bufs[b].count - 1);
    if f.count > 0 {
      LowerKeeps(p, b, p.lru);
    } else {
      var p2 := p.(bufs := p.bufs[b := f], lru := Relinked(p.lru, b, how.oneShot));
      LowerKeeps(p, b, p2.lru);
      var p3 := if how.writeImmed && f.dirt && f.dev != NO_DEV then WriteBack(p2, b) else p2;
      if how.writeImmed && f.dirt && f.dev != NO_DEV {
        WriteBackKeeps(p2, b);
      }
      if how.zuper {
        DropKeeps(p3, b);
      }
    }
  }

  // A holder's edit is seen at his block and nowhere else.
  lemma EditKeeps(p: Pool, b: nat, data: Block)
    requires Shape(p) && Coherent(p) && b < |p.bufs|
    ensures var r := Edit(p, b, data);
      && Shape(r) && Coherent(r)
      && forall k :: View(r, k) == if k.dev != NO_DEV && k == KeyOf(p.bufs[b]) then data else View(p, k)
  {
    var r := Edit(p, b, data);
    forall k ensures View(r, k) == if k.dev != NO_DEV && k == KeyOf(p.bufs[b]) then data else View(p, k) {
      if k.dev != NO_DEV && k == KeyOf(p.bufs[b]) {
        ViewOfBuffer(r, b, k);
      } else {
        ViewElsewhere(p, r, b, k);
      }
    }
  }

  // ---------------------------------------------------------------------
  // Flushing and invalidating

  // The minor number is the low byte of a device number.
  predicate DriveZero(dev: int) {
    dev % 256 == 0
  }

  // One pass of do_sync() from buffer i on, over drive 0 or over the rest.
  function FlushFrom(p: Pool, i: nat, zero: bool): (r: Pool)
    requires i <= |p.bufs|
    ensures |r.bufs| == |p.bufs|
    decreases |p.bufs| - i
  {
    if i == |p.bufs| then p
    else
      var f := p.bufs[i];
      var p1 := if f.dev != NO_DEV && f.dirt && DriveZero(f.dev) == zero then WriteBack(p, i) else p;
      FlushFrom(p1, i + 1, zero)
  }

  function Flush(p: Pool): (r: Pool)
    ensures |r.bufs| == |p.bufs|
  {
    FlushFrom(FlushFrom(p, 0, true), 0, false)
  }

  // Between calls nobody holds a block he has yet to overwrite.
  ghost predicate NoBlanks(p: Pool) {
    forall b :: 0 <= b < |p.bufs| ==> !p.bufs[b].blank
  }

  lemma {:induction false} FlushFromKeeps(p: Pool, i: nat, zero: bool)
    requires Shape(p) && Coherent(p) && NoBlanks(p) && i <= |p.bufs|
    ensures var r := FlushFrom(p, i, zero);
      && Shape(r) && Coherent(r) && NoBlanks(r) && r.lru == p.lru
      && (forall k :: View(r, k) == View(p, k))
      && (forall b :: 0 <= b < |p.bufs| ==> r.bufs[b] == p.bufs[b] || r.bufs[b] == p.bufs[b].(dirt := false))
      && (forall b :: i <= b < |p.bufs| && p.bufs[b].dev != NO_DEV && DriveZero(p.bufs[b].dev) == zero ==>
        !r.bufs[b].dirt)
    decreases |p.bufs| - i
  {
    if i < |p.bufs| {
      var f := p.bufs[i];
      var p1 := if f.dev != NO_DEV && f.dirt && DriveZero(f.dev) == zero then WriteBack(p, i) else p;
      if f.dev != NO_DEV && f.dirt && DriveZero(f.dev) == zero {
        WriteBackKeeps(p, i);
      }
      FlushFromKeeps(p1, i + 1, zero);
    }
  }

  // do_sync(): every buffer of a device is clean, so equal to the disk.
  lemma FlushCleans(p: Pool)
    requires Shape(p) && Coherent(p) && NoBlanks(p)
    ensures var r := Flush(p);
      && Shape(r) && Coherent(r) && NoBlanks(r)
      && (forall k :: View(r, k) == View(p, k))
      && (forall b :: 0 <= b < |r.bufs| && r.bufs[b].dev != NO_DEV ==> !r.bufs[b].dirt)
      && (forall k :: DiskAt(r.disk, k) == View(p, k) || k.dev == NO_DEV)
  {
    FlushFromKeeps(p, 0, true);
    FlushFromKeeps(FlushFrom(p, 0, true), 0, false);
    var r := Flush(p);
    forall k: Key | k.dev != NO_DEV ensures DiskAt(r.disk, k) == View(r, k) {
      var i := Find(r.bufs, k);
    }
  }

  function Dropped(b: Buf, dev: int): Buf {
    if b.dev == dev then b.(dev := NO_DEV) else b
  }

  // invalidate()
  function Invalidate(p: Pool, dev: int): (r: Pool)
    ensures |r.bufs| == |p.bufs|
  {
    p.(bufs := seq(|p.bufs|, i requires 0 <= i < |p.bufs| => Dropped(p.bufs[i], dev)))
  }

  // Dropping the blocks of a device shows exactly when one of them differed
  // from the disk.
  lemma InvalidateShows(p: Pool, dev: int)
    requires Coherent(p) && dev != NO_DEV
    ensures (forall k :: View(Invalidate(p, dev), k) == View(p, k)) <==>
            (forall b :: 0 <= b < |p.bufs| && p.bufs[b].dev == dev ==>
              p.bufs[b].data == DiskAt(p.disk, KeyOf(p.bufs[b])))
  {
    var r := Invalidate(p, dev);
    forall k: Key | k.dev == dev ensures View(r, k) == DiskAt(p.disk, k) {
      ViewOfDisk(r, k);
    }
    forall k: Key | k.dev != dev ensures View(r, k) == View(p, k) {
      if k.dev != NO_DEV {
        SameFind(p.bufs, r.bufs, k);
      }
    }
    if forall k :: View(r, k) == View(p, k) {
      forall b | 0 <= b < |p.bufs| && p.bufs[b].dev == dev
        ensures p.bufs[b].data == DiskAt(p.disk, KeyOf(p.bufs[b]))
      {
        ViewOfBuffer(p, b, KeyOf(p.bufs[b]));
        assert View(r, KeyOf(p.bufs[b])) == View(p, KeyOf(p.bufs[b]));
      }
    }
    if forall b :: 0 <= b < |p.bufs| && p.bufs[b].dev == dev ==> p.bufs[b].data == DiskAt(p.disk, KeyOf(p.bufs[b])) {
      forall k ensures View(r, k) == View(p, k) {
        if k.dev == dev {
          var i := Find(p.bufs, k);
        }
      }
    }
  }

  // Sync, then invalidate: nothing is lost, on any device.
  lemma SyncThenInvalidate(p: Pool, dev: int)
    requires Shape(p) && Coherent(p) && NoBlanks(p) && dev != NO_DEV
    ensures forall k :: View(Invalidate(Flush(p), dev), k) == View(p, k)
  {
    FlushCleans(p);
    InvalidateShows(Flush(p), dev);
    var r := Invalidate(Flush(p), dev);
    forall k ensures View(r, k) == View(p, k) {
      assert View(r, k) == View(Flush(p), k);
    }
  }
}
