// load_bit_maps(): the bit maps of a device are held in the cache, the busy bits
// are set in them without marking the buffers dirty, and their blocks are
// counted a second time.

module MapLoads {
  import BitMaps
  import opened Blocks
  import opened BufferPool

  const SUPER_BLOCK := 1
  const I_MAP_SLOTS := 4
  const ZMAP_SLOTS := 6

  // Inodes 0 and 1, and zone 0, are never allocated.
  const INODE_BITS := 2
  const ZONE_BITS := 1

  datatype Loaded = Loaded | TooFewBuffers | PanicTooMany

  // ---------------------------------------------------------------------
  // The busy bits

  // w | 1 << n - 1 | ... | 1
  function LowBits(w: nat, n: nat): nat {
    if n == 0 then w else BitMaps.SetBit(LowBits(w, n - 1), n - 1)
  }

  lemma {:induction false} LowBitsAt(w: nat, n: nat, i: nat)
    ensures BitMaps.Bit(LowBits(w, n), i) == (i < n || BitMaps.Bit(w, i))
  {
    if n > 0 {
      LowBitsAt(w, n - 1, i);
      BitMaps.SetBitAt(LowBits(w, n - 1), n - 1, i);
    }
  }

  lemma {:induction false} SetAlready(w: nat, i: nat)
    ensures BitMaps.SetBit(w, i) == w <==> BitMaps.Bit(w, i)
  {
    if i > 0 {
      SetAlready(w / 2, i - 1);
    }
  }

  // The first n bits of a map block are in its first byte.
  function Busied(data: Block, n: nat): Block {
    if data == [] || data[0] < 0 then data else data[0 := LowBits(data[0], n)]
  }

  // Nothing changes when the bits are set already.
  lemma {:induction false} BusyAlready(w: nat, n: nat)
    ensures LowBits(w, n) == w <==> forall i: nat :: i < n ==> BitMaps.Bit(w, i)
  {
    if n > 0 {
      BusyAlready(w, n - 1);
      SetAlready(w, n - 1);
      LowBitsAt(w, n - 1, n - 1);
      LowBitsGrow(w, n - 1);
      SetGrows(LowBits(w, n - 1), n - 1);
    }
  }

  lemma {:induction false} SetGrows(w: nat, i: nat)
    ensures BitMaps.SetBit(w, i) >= w
  {
    if i > 0 {
      SetGrows(w / 2, i - 1);
    }
  }

  lemma {:induction false} LowBitsGrow(w: nat, n: nat)
    ensures LowBits(w, n) >= w
  {
    if n > 0 {
      LowBitsGrow(w, n - 1);
      SetGrows(LowBits(w, n - 1), n - 1);
    }
  }

  lemma BusiedIff(data: Block, n: nat)
    requires data != [] && data[0] >= 0
    ensures Busied(data, n) == data <==> forall i: nat :: i < n ==> BitMaps.Bit(data[0], i)
  {
    BusyAlready(data[0], n);
    assert Busied(data, n)[0] == LowBits(data[0], n);
    if LowBits(data[0], n) == data[0] {
      assert Busied(data, n) == data;
    }
  }

  // ---------------------------------------------------------------------
  // A change without a dirty mark

  function Mark(p: Pool, b: nat, data: Block): (r: Pool)
    requires b < |p.bufs|
    ensures |r.bufs| == |p.bufs|
  {
    p.(bufs := p.bufs[b := p.bufs[b].(data := data)])
  }

  // It shows at that block and nowhere else ...
  lemma MarkShows(p: Pool, b: nat, data: Block)
    requires OnePlace(p) && b < |p.bufs| && p.bufs[b].dev != NO_DEV
    ensures OnePlace(Mark(p, b, data))
    ensures forall k :: View(Mark(p, b, data), k) ==
                          if k.dev != NO_DEV && k == KeyOf(p.bufs[b]) then data else View(p, k)
  {
    forall k ensures View(Mark(p, b, data), k) ==
                       if k.dev != NO_DEV && k == KeyOf(p.bufs[b]) then data else View(p, k)
    {
      MarkShowsAt(p, b, data, k);
    }
  }

  lemma MarkShowsAt(p: Pool, b: nat, data: Block, k: Key)
    requires OnePlace(p) && b < |p.bufs| && p.bufs[b].dev != NO_DEV
    ensures View(Mark(p, b, data), k) == if k.dev != NO_DEV && k == KeyOf(p.bufs[b]) then data else View(p, k)
  {
    FindUnique(p, b);
    SameFind(p.bufs, Mark(p, b, data).bufs, k);
  }

  // ... and the pool stays coherent exactly when the buffer was dirty or yet to
  // be overwritten, or the change agrees with the disk.
  lemma MarkKeeps(p: Pool, b: nat, data: Block)
    requires Coherent(p) && b < |p.bufs| && p.bufs[b].dev != NO_DEV
    ensures Coherent(Mark(p, b, data)) <==>
            p.bufs[b].dirt || p.bufs[b].blank || data == DiskAt(p.disk, KeyOf(p.bufs[b]))
  {
    MarkShows(p, b, data);
    assert Mark(p, b, data).bufs[b] == p.bufs[b].(data := data);
  }

  // The same for a change of two buffers.
  lemma MarkTwo(p: Pool, b: nat, data: Block, b': nat, data': Block)
    requires Coherent(p) && b < |p.bufs| && p.bufs[b].dev != NO_DEV && b' < |p.bufs| && p.bufs[b'].dev != NO_DEV
    requires b != b'
    ensures Coherent(Mark(Mark(p, b, data), b', data')) <==>
            && (p.bufs[b].dirt || p.bufs[b].blank || data == DiskAt(p.disk, KeyOf(p.bufs[b])))
            && (p.bufs[b'].dirt || p.bufs[b'].blank || data' == DiskAt(p.disk, KeyOf(p.bufs[b'])))
  {
    var q := Mark(p, b, data);
    MarkKeeps(p, b, data);
    if Coherent(q) {
      MarkKeeps(q, b', data');
    } else {
      assert Mark(q, b', data').bufs[b] == q.bufs[b] == p.bufs[b].(data := data);
    }
  }

  // Otherwise it is forgotten as soon as the buffer is given up.
  lemma MarkForgotten(p: Pool, b: nat, data: Block)
    requires Coherent(p) && b < |p.bufs| && p.bufs[b].dev != NO_DEV && !p.bufs[b].dirt && !p.bufs[b].blank
    ensures var k := KeyOf(p.bufs[b]);
      View(Mark(p, b, data), k) == data && View(Invalidate(Mark(p, b, data), k.dev), k) == View(p, k)
  {
    MarkShows(p, b, data);
    var k := KeyOf(p.bufs[b]);
    ViewOfBuffer(p, b, k);
    ViewOfDisk(Invalidate(Mark(p, b, data), k.dev), k);
  }

  // ---------------------------------------------------------------------
  // Holding the map blocks

  // load_bit_maps() refuses when it would leave fewer than four buffers.
  predicate CanLoad(p: Pool, n: nat) {
    BufsInUse(p) + n < |p.bufs| - 3
  }

  // n blocks of a device from block on, held from now on.
  ghost function MapsHeld(p: Pool, dev: int, block: nat, n: nat): (r: Pool)
    requires Shape(p) && Coherent(p) && BufsInUse(p) + n <= |p.bufs| && dev != NO_DEV
    ensures Shape(r) && Coherent(r) && |r.bufs| == |p.bufs| && r.reserved == p.reserved && r.lru == p.lru
    ensures InUse(p.bufs) <= InUse(r.bufs) <= InUse(p.bufs) + n
    decreases n
  {
    if n == 0 then p
    else
      GetKeeps(p, Key(dev, block), Normal);
      GetCounts(p, Key(dev, block), Normal);
      MapsHeld(Get(p, Key(dev, block), Normal).0, dev, block + 1, n - 1)
  }

  predicate HeldBlock(p: Pool, k: Key) {
    Cached(p, k) && p.bufs[Find(p.bufs, k)].count > 0
  }

  // What is held stays where it is.
  ghost predicate StillHeld(p: Pool, r: Pool) {
    forall k :: HeldBlock(p, k) ==> HeldBlock(r, k) && Find(r.bufs, k) == Find(p.bufs, k)
  }

  // Holding the bit maps changes what nobody sees, and every map block is then
  // in a buffer that is in use.
  lemma {:induction false} MapsHeldKeep(p: Pool, dev: int, block: nat, n: nat)
    requires Shape(p) && Coherent(p) && BufsInUse(p) + n <= |p.bufs| && dev != NO_DEV
    ensures var r := MapsHeld(p, dev, block, n);
      && (forall k :: View(r, k) == View(p, k)) && StillHeld(p, r)
      && (forall i :: block <= i < block + n ==> HeldBlock(r, Key(dev, i)))
      && (n > 0 ==> Find(r.bufs, Key(dev, block)) == Get(p, Key(dev, block), Normal).1)
    decreases n
  {
    if n > 0 {
      GetHolds(p, Key(dev, block));
      MapsHeldKeep(Get(p, Key(dev, block), Normal).0, dev, block + 1, n - 1);
    }
  }

  lemma GetHolds(p: Pool, k: Key)
    requires Shape(p) && Coherent(p) && CanGet(p, k) && k.dev != NO_DEV
    ensures var (q, b) := Get(p, k, Normal);
      && Shape(q) && Coherent(q) && |q.bufs| == |p.bufs| && BufsInUse(q) <= BufsInUse(p) + 1
      && HeldBlock(q, k) && Find(q.bufs, k) == b && StillHeld(p, q)
      && forall k' :: View(q, k') == View(p, k')
  {
    GetKeeps(p, k, Normal);
    GetCounts(p, k, Normal);
    var (q, b) := Get(p, k, Normal);
    FindUnique(q, b);
    forall k' | HeldBlock(p, k') ensures HeldBlock(q, k') && Find(q.bufs, k') == Find(p.bufs, k') {
      HeldAfter(p, k, k');
    }
  }

  lemma HeldAfter(p: Pool, k: Key, k': Key)
    requires Shape(p) && Coherent(p) && CanGet(p, k) && HeldBlock(p, k')
    ensures var q := Get(p, k, Normal).0; HeldBlock(q, k') && Find(q.bufs, k') == Find(p.bufs, k')
  {
    GetKeeps(p, k, Normal);
    GetFrame(p, k, Normal);
    FindUnique(Get(p, k, Normal).0, Find(p.bufs, k'));
  }

  // No block of the device waits to be written, or to be overwritten.
  ghost predicate CleanOf(p: Pool, dev: int) {
    forall b :: 0 <= b < |p.bufs| && p.bufs[b].dev == dev ==> !p.bufs[b].dirt && !p.bufs[b].blank
  }

  lemma {:induction false} MapsHeldClean(p: Pool, dev: int, block: nat, n: nat)
    requires Shape(p) && Coherent(p) && BufsInUse(p) + n <= |p.bufs| && dev != NO_DEV && CleanOf(p, dev)
    ensures CleanOf(MapsHeld(p, dev, block, n), dev)
    decreases n
  {
    if n > 0 {
      var q := Get(p, Key(dev, block), Normal).0;
      GetHolds(p, Key(dev, block));
      GetFrame(p, Key(dev, block), Normal);
      MapsHeldClean(q, dev, block + 1, n - 1);
    }
  }

  // ---------------------------------------------------------------------
  // load_bit_maps()

  function InodeMap(dev: int): Key {
    Key(dev, SUPER_BLOCK + 1)
  }

  function ZoneMap(dev: int, imaps: nat): Key {
    Key(dev, SUPER_BLOCK + 1 + imaps)
  }

  ghost predicate Loads(p: Pool, dev: int, imaps: nat, zmaps: nat) {
    && Shape(p) && Coherent(p) && CanLoad(p, imaps + zmaps) && dev != NO_DEV
    && 0 < imaps <= I_MAP_SLOTS && 0 < zmaps <= ZMAP_SLOTS
  }

  ghost function BothHeld(p: Pool, dev: int, imaps: nat, zmaps: nat): (r: Pool)
    requires Loads(p, dev, imaps, zmaps)
    ensures Shape(r) && Coherent(r) && |r.bufs| == |p.bufs| && r.reserved == p.reserved && r.lru == p.lru
    ensures InUse(r.bufs) <= InUse(p.bufs) + imaps + zmaps
  {
    MapsHeld(MapsHeld(p, dev, SUPER_BLOCK + 1, imaps), dev, SUPER_BLOCK + 1 + imaps, zmaps)
  }

  // Set the busy bits of a map block.
  function MarkBusy(p: Pool, k: Key, n: nat): (r: Pool)
    ensures |r.bufs| == |p.bufs|
  {
    if Cached(p, k) then Mark(p, Find(p.bufs, k), Busied(p.bufs[Find(p.bufs, k)].data, n)) else p
  }

  ghost function LoadMaps(p: Pool, dev: int, imaps: nat, zmaps: nat): (r: Pool)
    requires Loads(p, dev, imaps, zmaps)
    ensures Shape(r) && |r.bufs| == |p.bufs| && r.lru == p.lru && r.reserved == p.reserved + imaps + zmaps
  {
    var held := BothHeld(p, dev, imaps, zmaps);
    var r := MarkBusy(MarkBusy(held, InodeMap(dev), INODE_BITS), ZoneMap(dev, imaps), ZONE_BITS);
    r.(reserved := r.reserved + imaps + zmaps)
  }

  // The two blocks marked are held, in two buffers.
  lemma LoadedMaps(p: Pool, dev: int, imaps: nat, zmaps: nat)
    requires Loads(p, dev, imaps, zmaps)
    ensures var r := BothHeld(p, dev, imaps, zmaps);
      && HeldBlock(r, InodeMap(dev)) && HeldBlock(r, ZoneMap(dev, imaps))
      && Find(r.bufs, InodeMap(dev)) != Find(r.bufs, ZoneMap(dev, imaps))
      && (forall k :: View(r, k) == View(p, k)) && StillHeld(p, r)
  {
    MapsHeldKeep(p, dev, SUPER_BLOCK + 1, imaps);
    MapsHeldKeep(MapsHeld(p, dev, SUPER_BLOCK + 1, imaps), dev, SUPER_BLOCK + 1 + imaps, zmaps);
    var r := MapsHeld(p, dev, SUPER_BLOCK + 1, imaps);
    assert HeldBlock(r, Key(dev, SUPER_BLOCK + 1));
  }

  // Where the first block of either map was found.
  lemma FoundBoth(p: Pool, dev: int, imaps: nat, zmaps: nat)
    requires Loads(p, dev, imaps, zmaps)
    ensures var q, r := MapsHeld(p, dev, SUPER_BLOCK + 1, imaps), BothHeld(p, dev, imaps, zmaps);
      && BufsInUse(q) + zmaps <= |q.bufs|
      && CanGet(p, InodeMap(dev)) && Find(r.bufs, InodeMap(dev)) == Get(p, InodeMap(dev), Normal).1
      && CanGet(q, ZoneMap(dev, imaps)) && Find(r.bufs, ZoneMap(dev, imaps)) == Get(q, ZoneMap(dev, imaps), Normal).1
  {
    var q := MapsHeld(p, dev, SUPER_BLOCK + 1, imaps);
    MapsHeldKeep(p, dev, SUPER_BLOCK + 1, imaps);
    MapsHeldKeep(q, dev, SUPER_BLOCK + 1 + imaps, zmaps);
    assert HeldBlock(q, Key(dev, SUPER_BLOCK + 1));
  }

  // Loading, step by step.
  lemma MarkedBoth(p: Pool, dev: int, imaps: nat, zmaps: nat)
    requires Loads(p, dev, imaps, zmaps)
    ensures var held := BothHeld(p, dev, imaps, zmaps);
      var b, b' := Find(held.bufs, InodeMap(dev)), Find(held.bufs, ZoneMap(dev, imaps));
      && b < |held.bufs| && b' < |held.bufs| && b != b'
      && var q := Mark(Mark(held, b, Busied(held.bufs[b].data, INODE_BITS)), b', Busied(held.bufs[b'].data, ZONE_BITS));
      LoadMaps(p, dev, imaps, zmaps) == q.(reserved := q.reserved + imaps + zmaps)
  {
    LoadedMaps(p, dev, imaps, zmaps);
    var held := BothHeld(p, dev, imaps, zmaps);
    SameFind(held.bufs, MarkBusy(held, InodeMap(dev), INODE_BITS).bufs, ZoneMap(dev, imaps));
  }

  // What the store looks like when the busy bits are set.
  function WithBusy(dev: int, imaps: nat, k: Key, data: Block): Block {
    if k == InodeMap(dev) then Busied(data, INODE_BITS)
    else if k == ZoneMap(dev, imaps) then Busied(data, ZONE_BITS)
    else data
  }

  // Loading the maps of a device shows the busy bits, and nothing else.
  lemma LoadShows(p: Pool, dev: int, imaps: nat, zmaps: nat)
    requires Loads(p, dev, imaps, zmaps)
    ensures OnePlace(LoadMaps(p, dev, imaps, zmaps))
    ensures forall k :: View(LoadMaps(p, dev, imaps, zmaps), k) == WithBusy(dev, imaps, k, View(p, k))
  {
    LoadedMaps(p, dev, imaps, zmaps);
    var held := BothHeld(p, dev, imaps, zmaps);
    var k1, k2 := InodeMap(dev), ZoneMap(dev, imaps);
    var b1, b2 := Find(held.bufs, k1), Find(held.bufs, k2);
    var q := MarkBusy(held, k1, INODE_BITS);
    MarkShows(held, b1, Busied(held.bufs[b1].data, INODE_BITS));
    SameFind(held.bufs, q.bufs, k2);
    MarkShows(q, b2, Busied(held.bufs[b2].data, ZONE_BITS));
  }

  // Only contents have changed, not which buffer holds what.
  lemma LoadFrame(p: Pool, dev: int, imaps: nat, zmaps: nat)
    requires Loads(p, dev, imaps, zmaps)
    ensures var held, r := BothHeld(p, dev, imaps, zmaps), LoadMaps(p, dev, imaps, zmaps);
      |held.bufs| == |r.bufs| && forall b :: 0 <= b < |r.bufs| ==> r.bufs[b] == held.bufs[b].(data := r.bufs[b].data)
  {
    hide Shape, Coherent, BothHeld, MapsHeld, Find, Busied;
    var held := BothHeld(p, dev, imaps, zmaps);
    MarkFrame(held, InodeMap(dev), INODE_BITS);
    MarkFrame(MarkBusy(held, InodeMap(dev), INODE_BITS), ZoneMap(dev, imaps), ZONE_BITS);
  }

  lemma MarkFrame(p: Pool, k: Key, n: nat)
    ensures var r := MarkBusy(p, k, n);
      |p.bufs| == |r.bufs| && forall b :: 0 <= b < |r.bufs| ==> r.bufs[b] == p.bufs[b].(data := r.bufs[b].data)
  {}

  lemma CoherentCount(p: Pool, n: nat)
    ensures Coherent(p.(reserved := n)) == Coherent(p)
  {}

  // A map block may be marked: the bits are set already, or the buffer is to be
  // written anyway.
  ghost predicate MayMark(p: Pool, k: Key, n: nat) {
    Cached(p, k) ==>
      var f := p.bufs[Find(p.bufs, k)];
      f.dirt || f.blank || Busied(f.data, n) == f.data
  }

  ghost predicate MayLoad(p: Pool, dev: int, imaps: nat, zmaps: nat)
    requires Loads(p, dev, imaps, zmaps)
  {
    var held := BothHeld(p, dev, imaps, zmaps);
    MayMark(held, InodeMap(dev), INODE_BITS) && MayMark(held, ZoneMap(dev, imaps), ZONE_BITS)
  }

  // The cache stays coherent exactly then.
  lemma LoadKeeps(p: Pool, dev: int, imaps: nat, zmaps: nat)
    requires Loads(p, dev, imaps, zmaps)
    ensures Coherent(LoadMaps(p, dev, imaps, zmaps)) <==> MayLoad(p, dev, imaps, zmaps)
  {
    hide Coherent, Shape, LowBits, BothHeld, LoadMaps;
    LoadedMaps(p, dev, imaps, zmaps);
    MarkedBoth(p, dev, imaps, zmaps);
    var held := BothHeld(p, dev, imaps, zmaps);
    var k1, k2 := InodeMap(dev), ZoneMap(dev, imaps);
    var b1, b2 := Find(held.bufs, k1), Find(held.bufs, k2);
    var data1, data2 := Busied(held.bufs[b1].data, INODE_BITS), Busied(held.bufs[b2].data, ZONE_BITS);
    CoherentCount(Mark(Mark(held, b1, data1), b2, data2), held.reserved + imaps + zmaps);
    MarkTwo(held, b1, data1, b2, data2);
    MayMarkIs(held, k1, INODE_BITS);
    MayMarkIs(held, k2, ZONE_BITS);
  }

  lemma MayMarkIs(p: Pool, k: Key, n: nat)
    requires Coherent(p) && Cached(p, k)
    ensures var f := p.bufs[Find(p.bufs, k)];
      MayMark(p, k, n) <==> f.dirt || f.blank || Busied(f.data, n) == DiskAt(p.disk, KeyOf(f))
  {}

  // Of a device with no buffer to be written: when the bits are set on the
  // disk, as mkfs sets them.
  lemma LoadFromDisk(p: Pool, dev: int, imaps: nat, zmaps: nat)
    requires Loads(p, dev, imaps, zmaps) && CleanOf(p, dev)
    ensures Coherent(LoadMaps(p, dev, imaps, zmaps)) <==>
            forall k :: WithBusy(dev, imaps, k, DiskAt(p.disk, k)) == DiskAt(p.disk, k)
    ensures forall k: Key :: k.dev == dev ==> DiskAt(LoadMaps(p, dev, imaps, zmaps).disk, k) == DiskAt(p.disk, k)
  {
    LoadKeeps(p, dev, imaps, zmaps);
    LoadedMaps(p, dev, imaps, zmaps);
    MapsHeldClean(p, dev, SUPER_BLOCK + 1, imaps);
    MapsHeldClean(MapsHeld(p, dev, SUPER_BLOCK + 1, imaps), dev, SUPER_BLOCK + 1 + imaps, zmaps);
    var held := BothHeld(p, dev, imaps, zmaps);
    var k1, k2 := InodeMap(dev), ZoneMap(dev, imaps);
    CleanMark(p, held, k1, INODE_BITS);
    CleanMark(p, held, k2, ZONE_BITS);
    assert WithBusy(dev, imaps, k1, DiskAt(p.disk, k1)) == Busied(DiskAt(p.disk, k1), INODE_BITS);
    assert WithBusy(dev, imaps, k2, DiskAt(p.disk, k2)) == Busied(DiskAt(p.disk, k2), ZONE_BITS);
    forall k: Key | k.dev == dev ensures DiskAt(held.disk, k) == DiskAt(p.disk, k) {
      CleanView(p, k);
      CleanView(held, k);
    }
  }

  lemma CleanView(p: Pool, k: Key)
    requires Coherent(p) && CleanOf(p, k.dev) && k.dev != NO_DEV
    ensures View(p, k) == DiskAt(p.disk, k)
  {}

  lemma CleanMark(p: Pool, held: Pool, k: Key, n: nat)
    requires Coherent(p) && Coherent(held) && CleanOf(p, k.dev) && CleanOf(held, k.dev) && k.dev != NO_DEV
    requires View(held, k) == View(p, k) && Cached(held, k)
    ensures MayMark(held, k, n) <==> Busied(DiskAt(p.disk, k), n) == DiskAt(p.disk, k)
  {
    assert View(p, k) == DiskAt(p.disk, k);
  }

  // The two blocks, and one bit clear on the disk: after loading, the cache
  // shows the bit and will not write it.
  const CLEAR_MAP: Disk := map[Key(1, 2) := [0, 0], Key(1, 3) := [1, 0]]

  lemma ClearBusied()
    ensures Busied([0, 0], INODE_BITS) == [3, 0]
  {
    assert LowBits(0, 1) == 1;
  }

  lemma LoadLosesMark()
    ensures var p := Fresh(6, CLEAR_MAP);
      && Loads(p, 1, 1, 1) && !Coherent(LoadMaps(p, 1, 1, 1))
      && View(LoadMaps(p, 1, 1, 1), Key(1, 2)) == [3, 0] && DiskAt(LoadMaps(p, 1, 1, 1).disk, Key(1, 2)) == [0, 0]
  {
    hide Coherent, Shape, BothHeld, MapsHeld, LoadMaps;
    var p := Fresh(6, CLEAR_MAP);
    FreshOk(6, CLEAR_MAP);
    LoadFromDisk(p, 1, 1, 1);
    LoadShows(p, 1, 1, 1);
    ClearBusied();
    ViewOfDisk(p, Key(1, 2));
  }
}
