// What a write makes of a file, chunk by chunk: the new contents are wanted
// byte by byte, and every chunk brings more of them about.

module FileWrites {
  import opened Basics
  import opened Blocks
  import opened ZoneTree
  import opened FileBlocks
  import opened FileBytes

  // ---------------------------------------------------------------------
  // One chunk

  // The new contents of the block written: at or past the end it starts from
  // zeros, otherwise from what was there.
  function ChunkBlock(was: Block, bs: nat, anew: bool, off: nat, data: seq<int>): (r: Block)
    requires |was| == bs && off + |data| <= bs
    ensures |r| == bs
  {
    Patch(if anew then Zeros(bs) else was, off, data)
  }

  // Data goes into one block, in the zone z.
  predicate ChunkFits(g: Geo, pos: nat, data: seq<int>) {
    g.Valid() && 0 < |data| && pos % g.bs + |data| <= g.bs && Reach(g, pos)
  }

  // The other blocks of a zone entered at the end of the file.
  predicate Stale(g: Geo, store: Store, ino: Inode, pos: nat, bi: nat)
    requires g.Valid() && |ino.zone| == NR_ZONE_NUMS
  {
    pos == ino.size && ZoneOf(g, store, ino, ZoneNr(g, pos)) == NO_ZONE && bi / g.spz == ZoneNr(g, pos)
  }

  // Block bi after a chunk at pos went into zone z.  A zone that is new is
  // cleared around the chunk, unless that is at the very end of the file: then
  // the zone shows what it held when it was free.
  ghost predicate BlockAfter(g: Geo, store: Store, ino: Inode, after: Block, z: int, pos: nat, data: seq<int>, bi: nat)
    requires ChunkFits(g, pos, data) && |ino.zone| == NR_ZONE_NUMS
    requires |FileBlock(g, store, ino, BlockNr(g, pos))| == g.bs
  {
    after ==
      if bi == BlockNr(g, pos) then
        ChunkBlock(FileBlock(g, store, ino, bi), g.bs, pos % g.bs == 0 && pos >= ino.size, pos % g.bs, data)
      else if Stale(g, store, ino, pos, bi) then ZoneBlock(g, store, z, bi % g.spz)
      else FileBlock(g, store, ino, bi)
  }

  // What rw_chunk() does to the file it writes.
  ghost predicate ChunkWritten(g: Geo, store: Store, ino: Inode, store': Store, ino': Inode, pos: nat, data: seq<int>)
    requires ChunkFits(g, pos, data) && |ino.zone| == NR_ZONE_NUMS && |ino'.zone| == NR_ZONE_NUMS
    requires |FileBlock(g, store, ino, BlockNr(g, pos))| == g.bs
  {
    && ino'.size == ino.size
    && (forall zi: nat {:trigger ZoneOf(g, store', ino', zi)} :: zi < g.MaxZones() && zi != ZoneNr(g, pos) ==>
          ZoneOf(g, store', ino', zi) == ZoneOf(g, store, ino, zi))
    && ZoneOf(g, store', ino', ZoneNr(g, pos)) != NO_ZONE
    && (ZoneOf(g, store, ino, ZoneNr(g, pos)) != NO_ZONE ==>
          ZoneOf(g, store', ino', ZoneNr(g, pos)) == ZoneOf(g, store, ino, ZoneNr(g, pos)))
    && (forall bi: nat {:trigger FileBlock(g, store', ino', bi)} :: InReach(g, bi) ==>
          BlockAfter(g, store, ino, FileBlock(g, store', ino', bi), ZoneOf(g, store', ino', ZoneNr(g, pos)), pos, data,
            bi))
  }

  // ---------------------------------------------------------------------
  // Many chunks

  // What byte j should be when k bytes of data have been written at pos.
  function Want(g: Geo, store: Store, ino: Inode, pos: nat, data: seq<int>, k: nat, j: nat): int
    requires g.Valid() && |ino.zone| == NR_ZONE_NUMS && k <= |data|
  {
    if pos <= j < pos + k then data[j - pos] else if j < ino.size then Byte(g, store, ino, j) else 0
  }

  // Every byte below lim is as wanted, up to the end of the last block in use.
  ghost predicate Progress(g: Geo, store: Store, ino: Inode, store': Store, ino': Inode, pos: nat, data: seq<int>,
                           k: nat, lim: nat)
    requires g.Valid() && |ino.zone| == NR_ZONE_NUMS && |ino'.zone| == NR_ZONE_NUMS && k <= |data|
  {
    forall j: nat {:trigger Byte(g, store', ino', j)} ::
      j < lim && Settled(g, store, ino, pos, k, j) ==> Byte(g, store', ino', j) == Want(g, store, ino, pos, data, k, j)
  }

  predicate Settled(g: Geo, store: Store, ino: Inode, pos: nat, k: nat, j: nat)
    requires g.Valid() && |ino.zone| == NR_ZONE_NUMS
  {
    && !(k > 0 && InGap(g, store, ino, pos, BlockNr(g, j)))
    && (pos > ino.size || BlockStart(g, j) < Max(ino.size, pos + k))
  }

  // The zone of the last chunk is mapped, and chunks end with their block.
  ghost predicate Aligned(g: Geo, store': Store, ino': Inode, pos: nat, size: nat, k: nat)
    requires g.Valid() && |ino'.zone| == NR_ZONE_NUMS && k <= size
  {
    k > 0 ==>
      && Reach(g, pos + k - 1) && ZoneOf(g, store', ino', ZoneNr(g, pos + k - 1)) != NO_ZONE
      && (k < size ==> (pos + k) % g.bs == 0)
  }

  // Byte j after a chunk at p.
  function ByteAfter(g: Geo, store: Store, ino: Inode, p: nat, chunk: seq<int>, j: nat): int
    requires g.Valid() && |ino.zone| == NR_ZONE_NUMS
  {
    if p <= j < p + |chunk| then chunk[j - p]
    else if BlockStart(g, j) == BlockStart(g, p) == p && p >= ino.size then 0
    else Byte(g, store, ino, j)
  }

  lemma ChunkByte(g: Geo, store: Store, ino: Inode, store': Store, ino': Inode, z: int, p: nat, chunk: seq<int>, j: nat)
    requires ChunkFits(g, p, chunk) && |ino.zone| == NR_ZONE_NUMS && |ino'.zone| == NR_ZONE_NUMS
    requires |FileBlock(g, store, ino, BlockNr(g, p))| == g.bs
    requires BlockAfter(g, store, ino, FileBlock(g, store', ino', BlockNr(g, j)), z, p, chunk, BlockNr(g, j))
    ensures Byte(g, store', ino', j) == ByteAfter(g, store, ino, p, chunk, j)
            || (Stale(g, store, ino, p, BlockNr(g, j)) && BlockNr(g, j) != BlockNr(g, p))
  {
    BlockOrder(g, j, p);
    BlockOrder(g, p, j);
  }

  // A block in the middle of a zone shares it with the block before.
  lemma SameZoneBefore(g: Geo, bi: nat)
    requires g.Valid() && bi % g.spz != 0
    ensures bi > 0 && (bi - 1) / g.spz == bi / g.spz
  {
    DivUnique(bi - 1, g.spz, bi / g.spz, bi % g.spz - 1);
  }

  lemma BlockBefore(g: Geo, p: nat)
    requires g.Valid() && p > 0 && p % g.bs == 0
    ensures BlockNr(g, p) > 0 && BlockNr(g, p - 1) == BlockNr(g, p) - 1
  {
    MulGrows(0, BlockNr(g, p), g.bs);
    DivUnique(p - 1, g.bs, BlockNr(g, p) - 1, g.bs - 1);
  }

  // Only the blocks in the gap can show stale data.
  lemma StaleIsGap(g: Geo, store0: Store, ino0: Inode, store: Store, ino: Inode, pos: nat, size: nat, k: nat, bj: nat)
    requires g.Valid() && |ino0.zone| == NR_ZONE_NUMS && |ino.zone| == NR_ZONE_NUMS && k < size && ino.size == ino0.size
    requires k == 0 ==> ZoneOf(g, store, ino, ZoneNr(g, pos)) == ZoneOf(g, store0, ino0, ZoneNr(g, pos))
    requires Aligned(g, store, ino, pos, size, k) && Stale(g, store, ino, pos + k, bj)
    ensures InGap(g, store0, ino0, pos, bj) || bj >= BlockNr(g, pos + k)
  {
    var p := pos + k;
    var bi := BlockNr(g, p);
    if bj < bi {
      if bi % g.spz == 0 {
        IndexSplit(g, bi);
        IndexSplit(g, bj);
      } else if k > 0 {
        SameZoneBefore(g, bi);
        BlockBefore(g, p);
      }
    }
  }

  // Where a byte that is settled now was before the chunk.
  lemma SettledBefore(g: Geo, size: nat, pos: nat, k: nat, m: nat, j: nat)
    requires g.Valid() && (pos + k) % g.bs + m <= g.bs
    requires pos > size || BlockStart(g, j) < Max(size, pos + k + m)
    ensures BlockNr(g, j) != BlockNr(g, pos + k) ==>
      !(pos + k <= j < pos + k + m) && (pos > size || BlockStart(g, j) < Max(size, pos + k))
    ensures BlockNr(g, j) > BlockNr(g, pos + k) ==> pos > size || pos + k < size
  {
    BlockOrder(g, j, pos + k);
    BlockOrder(g, pos + k, j);
  }

  // One more chunk keeps the promise, byte by byte.
  lemma ChunkProgressAt(g: Geo, store0: Store, ino0: Inode, store: Store, ino: Inode, byte: int,
                        pos: nat, data: seq<int>, k: nat, m: nat, j: nat)
    requires g.Valid() && |ino0.zone| == NR_ZONE_NUMS && |ino.zone| == NR_ZONE_NUMS && ino.size == ino0.size
    requires 0 < m && k + m <= |data| && (pos + k) % g.bs + m <= g.bs
    requires k == 0 ==> ZoneOf(g, store, ino, ZoneNr(g, pos)) == ZoneOf(g, store0, ino0, ZoneNr(g, pos))
    requires Aligned(g, store, ino, pos, |data|, k)
    requires Settled(g, store0, ino0, pos, k, j) ==> Byte(g, store, ino, j) == Want(g, store0, ino0, pos, data, k, j)
    requires byte == ByteAfter(g, store, ino, pos + k, data[k..k + m], j)
             || (Stale(g, store, ino, pos + k, BlockNr(g, j)) && BlockNr(g, j) != BlockNr(g, pos + k))
    requires Settled(g, store0, ino0, pos, k + m, j)
    ensures byte == Want(g, store0, ino0, pos, data, k + m, j)
  {
    SettledBefore(g, ino0.size, pos, k, m, j);
    BlockOrder(g, j, pos + k);
    if Stale(g, store, ino, pos + k, BlockNr(g, j)) {
      StaleIsGap(g, store0, ino0, store, ino, pos, |data|, k, BlockNr(g, j));
    }
  }

  lemma ChunkProgress(g: Geo, store0: Store, ino0: Inode, store: Store, ino: Inode, store': Store, ino': Inode,
                      pos: nat, data: seq<int>, k: nat, chunk: seq<int>, lim: nat)
    requires g.Valid() && |ino0.zone| == NR_ZONE_NUMS && |ino.zone| == NR_ZONE_NUMS && |ino'.zone| == NR_ZONE_NUMS
    requires ChunkFits(g, pos + k, chunk) && k + |chunk| <= |data| && chunk == data[k..k + |chunk|]
    requires ino.size == ino0.size
    requires |FileBlock(g, store, ino, BlockNr(g, pos + k))| == g.bs
    requires ChunkWritten(g, store, ino, store', ino', pos + k, chunk)
    requires k == 0 ==> ZoneOf(g, store, ino, ZoneNr(g, pos)) == ZoneOf(g, store0, ino0, ZoneNr(g, pos))
    requires Progress(g, store0, ino0, store, ino, pos, data, k, lim) && Aligned(g, store, ino, pos, |data|, k)
    requires forall j :: 0 <= j < lim ==> Reach(g, j)
    ensures Progress(g, store0, ino0, store', ino', pos, data, k + |chunk|, lim)
  {
    forall j: nat | j < lim && Settled(g, store0, ino0, pos, k + |chunk|, j)
      ensures Byte(g, store', ino', j) == Want(g, store0, ino0, pos, data, k + |chunk|, j)
    {
      assert Reach(g, j);
      var bi := BlockNr(g, j);
      assert InReach(g, bi);
      var z := ZoneOf(g, store', ino', ZoneNr(g, pos + k));
      assert BlockAfter(g, store, ino, FileBlock(g, store', ino', bi), z, pos + k, chunk, bi);
      ChunkByte(g, store, ino, store', ino', z, pos + k, chunk, j);
      ChunkProgressAt(g, store0, ino0, store, ino, Byte(g, store', ino', j), pos, data, k, |chunk|, j);
    }
  }

  // ---------------------------------------------------------------------
  // Before the first chunk and after the last

  lemma StartProgress(g: Geo, store0: Store, ino: Inode, store: Store, pos: nat, data: seq<int>, lim: nat)
    requires g.Valid() && |ino.zone| == NR_ZONE_NUMS
    requires forall j: nat {:trigger Byte(g, store, ino, j)} :: j < ino.size ==>
      Byte(g, store, ino, j) == Byte(g, store0, ino, j)
    requires if pos > ino.size then ZeroFrom(g, store, ino, ino.size, lim) else TailZero(g, store, ino, ino.size, lim)
    ensures Progress(g, store0, ino, store, ino, pos, data, 0, lim)
  {}

  lemma SizeFrame(g: Geo, store: Store, ino: Inode, size: nat)
    requires g.Valid() && |ino.zone| == NR_ZONE_NUMS
    ensures forall bi: nat :: FileBlock(g, store, ino.(size := size), bi) == FileBlock(g, store, ino, bi)
    ensures forall j: nat :: Byte(g, store, ino.(size := size), j) == Byte(g, store, ino, j)
    ensures forall zi: nat :: ZoneOf(g, store, ino.(size := size), zi) == ZoneOf(g, store, ino, zi)
  {}

  // What the file holds when k bytes have been written.
  ghost predicate Written(g: Geo, store: Store, ino: Inode, store': Store, ino': Inode, pos: nat, data: seq<int>,
                          k: nat)
    requires g.Valid() && |ino.zone| == NR_ZONE_NUMS && |ino'.zone| == NR_ZONE_NUMS && k <= |data|
  {
    && ino'.size == Max(ino.size, pos + k)
    && forall j: nat {:trigger Byte(g, store', ino', j)} ::
         j < ino'.size && !(k > 0 && InGap(g, store, ino, pos, BlockNr(g, j))) ==>
           Byte(g, store', ino', j) == Want(g, store, ino, pos, data, k, j)
  }

  // After the last chunk the size is set.
  lemma FinishProgress(g: Geo, store0: Store, ino0: Inode, store: Store, ino: Inode, pos: nat, data: seq<int>, k: nat,
                       lim: nat)
    requires g.Valid() && |ino0.zone| == NR_ZONE_NUMS && |ino.zone| == NR_ZONE_NUMS && k <= |data|
    requires Progress(g, store0, ino0, store, ino, pos, data, k, lim) && Max(ino0.size, pos + k) <= lim
    ensures var ino' := ino.(size := Max(ino0.size, pos + k));
      Written(g, store0, ino0, store, ino', pos, data, k) && TailZero(g, store, ino', ino'.size, lim)
  {
    var end := Max(ino0.size, pos + k);
    SizeFrame(g, store, ino, end);
    forall j: nat | BlockStart(g, j) < end <= j < lim ensures Byte(g, store, ino, j) == 0 {
      BlockOrder(g, j, pos);
    }
  }

  // Away from the gap this is the old contents with the data spliced in.
  lemma WrittenIsSpliced(g: Geo, store: Store, ino: Inode, store': Store, ino': Inode, pos: nat, data: seq<int>, k: nat)
    requires g.Valid() && |ino.zone| == NR_ZONE_NUMS && |ino'.zone| == NR_ZONE_NUMS && k <= |data|
    requires Written(g, store, ino, store', ino', pos, data, k) && !(k > 0 && BadGap(g, store, ino, pos))
    ensures Contents(g, store', ino') == Spliced(Contents(g, store, ino), pos, data[..k])
  {
    var c, c' := Contents(g, store, ino), Contents(g, store', ino');
    forall j | 0 <= j < |c'|
      ensures j < |Spliced(c, pos, data[..k])| && c'[j] == Spliced(c, pos, data[..k])[j]
    {
      SplicedAt(c, pos, data[..k], j);
    }
  }

  // ---------------------------------------------------------------------
  // Clearing the rest of a zone

  // The first block to clear, and the end: what clear_zone() makes of a
  // position, for a whole zone or for what follows the position.
  function ClearLo(g: Geo, pos: nat, whole: bool): nat
    requires g.Valid()
  {
    if whole then ZoneNr(g, pos) * g.spz else BlockNr(g, pos + g.bs - 1)
  }

  function ClearHi(g: Geo, store: Store, ino: Inode, pos: nat, whole: bool): (hi: nat)
    requires g.Valid() && |ino.zone| == NR_ZONE_NUMS
  {
    var lo := ClearLo(g, pos, whole);
    if g.spz == 1 || lo / g.spz != ZoneNr(g, pos) || ZoneOf(g, store, ino, ZoneNr(g, pos)) == NO_ZONE then lo
    else (ZoneNr(g, pos) + 1) * g.spz
  }

  // How clear_zone() computes them.
  lemma ClearIndices(g: Geo, pos: nat, whole: bool)
    requires g.Valid()
    ensures g.bs * g.spz > 0
    ensures var zoneSize := g.bs * g.spz;
      var p := if whole then pos / zoneSize * zoneSize else pos;
      var next := p + g.bs - 1;
      && p >= 0 && next / g.bs == ClearLo(g, pos, whole)
      && p / zoneSize == ZoneNr(g, pos) && next / zoneSize == ClearLo(g, pos, whole) / g.spz
  {
    DivDiv(pos, g.bs, g.spz);
    var zoneSize, zn := g.bs * g.spz, ZoneNr(g, pos);
    MulLe(0, zn, zoneSize);
    if whole {
      DivUnique(zn * zoneSize, zoneSize, zn, 0);
      assert zn * zoneSize == zn * g.spz * g.bs;
      DivUnique(zn * zoneSize + g.bs - 1, g.bs, zn * g.spz, g.bs - 1);
      DivDiv(zn * zoneSize + g.bs - 1, g.bs, g.spz);
    } else {
      DivDiv(pos + g.bs - 1, g.bs, g.spz);
    }
  }

  // Blocks lo to hi of file f are zero now; nothing else is different.
  ghost predicate Cleared(g: Geo, store: Store, store': Store, inodes: seq<Inode>, f: nat, lo: nat, hi: nat)
    requires g.Valid() && InodesOk(inodes)
  {
    && SameTree(g, store, inodes, store', inodes)
    && forall f': nat, bi: nat {:trigger FileBlock(g, store', inodes[f'], bi)} :: f' < |inodes| && InReach(g, bi) ==>
         FileBlock(g, store', inodes[f'], bi) ==
           if f' == f && lo <= bi < hi then Zeros(g.bs) else FileBlock(g, store, inodes[f'], bi)
  }

  lemma NothingCleared(g: Geo, store: Store, inodes: seq<Inode>, f: nat, lo: nat)
    requires g.Valid() && InodesOk(inodes)
    ensures Cleared(g, store, store, inodes, f, lo, lo)
  {}

  // The last block of the zone that block lo of a file is in.
  lemma ZoneTop(g: Geo, store: Store, ino: Inode, lo: nat)
    requires g.Valid() && |ino.zone| == NR_ZONE_NUMS && ZoneOf(g, store, ino, lo / g.spz) > NO_ZONE
    ensures lo < (lo / g.spz + 1) * g.spz
    ensures var blo := BlockAt(g, store, ino, lo);
      blo >= 0 && (blo / g.spz + 1) * g.spz - blo == (lo / g.spz + 1) * g.spz - lo
  {
    var z := ZoneOf(g, store, ino, lo / g.spz);
    IndexSplit(g, lo);
    MulGrows(lo / g.spz, lo / g.spz + 1, g.spz);
    MulGrows(z, z + 1, g.spz);
    MulLe(0, z, g.spz);
    DivUnique(BlockAt(g, store, ino, lo), g.spz, z, lo % g.spz);
  }

  // Later blocks of the same zone follow it on the device.
  lemma ZoneRun(g: Geo, store: Store, ino: Inode, lo: nat, bi: nat)
    requires g.Valid() && |ino.zone| == NR_ZONE_NUMS && ZoneOf(g, store, ino, lo / g.spz) != NO_ZONE
    requires lo <= bi < (lo / g.spz + 1) * g.spz
    ensures bi / g.spz == lo / g.spz && BlockAt(g, store, ino, bi) == BlockAt(g, store, ino, lo) + (bi - lo)
  {
    IndexSplit(g, lo);
    assert (lo / g.spz + 1) * g.spz == lo / g.spz * g.spz + g.spz;
    DivUnique(bi, g.spz, lo / g.spz, bi - lo / g.spz * g.spz);
  }

  // One more block is cleared.
  lemma ClearNext(g: Geo, store0: Store, store: Store, inodes: seq<Inode>, owner: map<int, Owner>, f: nat, lo: nat,
                  bi: nat)
    requires g.Valid() && InodesOk(inodes) && StoreOk(g, store) && Owned(g, store, inodes, owner) && f < |inodes|
    requires InReach(g, lo) && ZoneOf(g, store0, inodes[f], lo / g.spz) != NO_ZONE
    requires lo <= bi < (lo / g.spz + 1) * g.spz && Cleared(g, store0, store, inodes, f, lo, bi)
    ensures var b := BlockAt(g, store0, inodes[f], lo) + (bi - lo);
      && 0 <= b < |store|
      && var store' := store[b := Zeros(g.bs)];
      && StoreOk(g, store') && Owned(g, store', inodes, owner) && Cleared(g, store0, store', inodes, f, lo, bi + 1)
  {
    ZoneRun(g, store0, inodes[f], lo, bi);
    assert SlotOk(g, Data(lo / g.spz));
    assert ZoneAt(g, store, inodes[f], Data(lo / g.spz)) == ZoneAt(g, store0, inodes[f], Data(lo / g.spz));
    ZoneRun(g, store, inodes[f], lo, bi);
    BlockInStore(g, store, inodes, owner, f, bi);
    WriteData(g, store, inodes, owner, f, bi, Zeros(g.bs));
    var store' := store[BlockAt(g, store, inodes[f], bi) := Zeros(g.bs)];
    ClearedTrans(g, store0, store, store', inodes, f, lo, bi);
  }

  lemma ClearedTrans(g: Geo, store0: Store, store: Store, store': Store, inodes: seq<Inode>, f: nat, lo: nat, bi: nat)
    requires g.Valid() && InodesOk(inodes) && lo <= bi
    requires Cleared(g, store0, store, inodes, f, lo, bi) && Cleared(g, store, store', inodes, f, bi, bi + 1)
    ensures Cleared(g, store0, store', inodes, f, lo, bi + 1)
  {
    forall f', sl | 0 <= f' < |inodes| && SlotOk(g, sl)
      ensures ZoneAt(g, store', inodes[f'], sl) == ZoneAt(g, store0, inodes[f'], sl)
    {
      assert ZoneAt(g, store, inodes[f'], sl) == ZoneAt(g, store0, inodes[f'], sl);
    }
    forall f': nat, bj: nat | f' < |inodes| && InReach(g, bj)
      ensures FileBlock(g, store', inodes[f'], bj) ==
              if f' == f && lo <= bj < bi + 1 then Zeros(g.bs) else FileBlock(g, store0, inodes[f'], bj)
    {
      assert FileBlock(g, store, inodes[f'], bj) ==
             if f' == f && lo <= bj < bi then Zeros(g.bs) else FileBlock(g, store0, inodes[f'], bj);
    }
  }

  // Zone zj of the tree begins below the end and holds a byte at or past it.
  lemma LastZone(g: Geo, size: nat, j: nat)
    requires g.Valid() && ZoneNr(g, j) * g.ZoneBytes() < size <= j
    ensures ZoneNr(g, size) == ZoneNr(g, j)
    ensures BlockStart(g, j) >= size ==>
      ClearLo(g, size, false) <= BlockNr(g, j) && ClearLo(g, size, false) / g.spz == ZoneNr(g, j)
  {
    DivDiv(size, g.bs, g.spz);
    DivDiv(j, g.bs, g.spz);
    DivMono(size, j, g.ZoneBytes());
    DivAtLeast(size, ZoneNr(g, j), g.ZoneBytes());
    if BlockStart(g, j) >= size {
      var next := size + g.bs - 1;
      DivMono(next, BlockStart(g, j) + g.bs - 1, g.bs);
      DivUnique(BlockStart(g, j) + g.bs - 1, g.bs, BlockNr(g, j), g.bs - 1);
      DivMono(size, next, g.bs);
      DivMono(BlockNr(g, size), BlockNr(g, next), g.spz);
      DivMono(BlockNr(g, next), BlockNr(g, j), g.spz);
    }
  }

  // What is cleared lies past the end.
  lemma ClearedBefore(g: Geo, size: nat, j: nat)
    requires g.Valid() && j < size
    ensures BlockNr(g, j) < ClearLo(g, size, false)
  {
    BlockStartIs(g, j);
    DivUnique(j + g.bs, g.bs, BlockNr(g, j) + 1, j % g.bs);
    DivMono(j + g.bs, size + g.bs - 1, g.bs);
  }

  // After the zone at the end of a file has been cleared, nothing but zeros
  // follows the end.
  lemma ClearedTailAt(g: Geo, store: Store, store': Store, ino: Inode, j: nat)
    requires g.Valid() && |ino.zone| == NR_ZONE_NUMS
    requires ZoneOf(g, store, ino, ZoneNr(g, j)) != NO_ZONE ==> ZoneNr(g, j) * g.ZoneBytes() < ino.size
    requires BlockStart(g, j) < ino.size <= j ==> Byte(g, store, ino, j) == 0
    requires FileBlock(g, store', ino, BlockNr(g, j)) ==
             if ClearLo(g, ino.size, false) <= BlockNr(g, j) < ClearHi(g, store, ino, ino.size, false) then Zeros(g.bs)
             else FileBlock(g, store, ino, BlockNr(g, j))
    ensures Byte(g, store', ino, j) == if j < ino.size then Byte(g, store, ino, j) else 0
  {
    var bi, zj := BlockNr(g, j), ZoneNr(g, j);
    if j < ino.size {
      ClearedBefore(g, ino.size, j);
    } else if ZoneOf(g, store, ino, zj) != NO_ZONE {
      LastZone(g, ino.size, j);
      if BlockStart(g, j) < ino.size {
      } else if g.spz == 1 {
        BlockStartIs(g, j);
      } else {
        IndexSplit(g, bi);
        MulGrows(zj, zj + 1, g.spz);
      }
    }
  }

  lemma ClearedTail(g: Geo, store: Store, store': Store, inodes: seq<Inode>, f: nat, lim: nat)
    requires g.Valid() && InodesOk(inodes) && f < |inodes| && FileOk(g, store, inodes[f], lim)
    requires forall j :: 0 <= j < lim ==> Reach(g, j)
    requires var size := inodes[f].size;
      Cleared(g, store, store', inodes, f, ClearLo(g, size, false), ClearHi(g, store, inodes[f], size, false))
    ensures ZeroFrom(g, store', inodes[f], inodes[f].size, lim)
    ensures forall j: nat {:trigger Byte(g, store', inodes[f], j)} :: j < inodes[f].size ==>
              Byte(g, store', inodes[f], j) == Byte(g, store, inodes[f], j)
  {
    forall j: nat | j < lim
      ensures Byte(g, store', inodes[f], j) == if j < inodes[f].size then Byte(g, store, inodes[f], j) else 0
    {
      assert Reach(g, j);
      var b := FileBlock(g, store', inodes[f], BlockNr(g, j));
      ClearedTailAt(g, store, store', inodes[f], j);
    }
  }

  // ---------------------------------------------------------------------
  // The other files

  ghost predicate OthersKept(g: Geo, store: Store, inodes: seq<Inode>, store': Store, inodes': seq<Inode>, f: nat)
    requires g.Valid() && InodesOk(inodes) && InodesOk(inodes')
  {
    && |inodes'| == |inodes|
    && (forall f' :: 0 <= f' < |inodes| && f' != f ==> inodes'[f'] == inodes[f'])
    && (forall f': nat, bi: nat {:trigger FileBlock(g, store', inodes'[f'], bi)} ::
          f' < |inodes| && f' != f && InReach(g, bi) ==>
            FileBlock(g, store', inodes'[f'], bi) == FileBlock(g, store, inodes[f'], bi))
    && (forall f': nat, zi: nat {:trigger ZoneOf(g, store', inodes'[f'], zi)} ::
          f' < |inodes| && f' != f && zi < g.MaxZones() ==>
            ZoneOf(g, store', inodes'[f'], zi) == ZoneOf(g, store, inodes[f'], zi))
  }

  lemma OthersKeptTrans(g: Geo, a: Store, i: seq<Inode>, b: Store, j: seq<Inode>, c: Store, k: seq<Inode>, f: nat)
    requires g.Valid() && InodesOk(i) && InodesOk(j) && InodesOk(k)
    requires OthersKept(g, a, i, b, j, f) && OthersKept(g, b, j, c, k, f)
    ensures OthersKept(g, a, i, c, k, f)
  {
    forall f': nat, bi: nat | f' < |i| && f' != f && InReach(g, bi)
      ensures FileBlock(g, c, k[f'], bi) == FileBlock(g, a, i[f'], bi)
    {
      assert FileBlock(g, b, j[f'], bi) == FileBlock(g, a, i[f'], bi);
    }
    forall f': nat, zi: nat | f' < |i| && f' != f && zi < g.MaxZones()
      ensures ZoneOf(g, c, k[f'], zi) == ZoneOf(g, a, i[f'], zi)
    {
      assert ZoneOf(g, b, j[f'], zi) == ZoneOf(g, a, i[f'], zi);
    }
  }

  // So their contents are what they were, and they are still proper.
  lemma OthersContents(g: Geo, store: Store, inodes: seq<Inode>, store': Store, inodes': seq<Inode>, f: nat, f': nat,
                       lim: nat)
    requires g.Valid() && InodesOk(inodes) && InodesOk(inodes') && OthersKept(g, store, inodes, store', inodes', f)
    requires f' < |inodes| && f' != f && FileOk(g, store, inodes[f'], lim)
    requires forall j :: 0 <= j < lim ==> Reach(g, j)
    ensures Contents(g, store', inodes'[f']) == Contents(g, store, inodes[f'])
    ensures FileOk(g, store', inodes'[f'], lim)
  {
    forall j: nat | j < lim ensures Byte(g, store', inodes'[f'], j) == Byte(g, store, inodes[f'], j) {
      assert Reach(g, j);
      assert FileBlock(g, store', inodes'[f'], BlockNr(g, j)) == FileBlock(g, store, inodes[f'], BlockNr(g, j));
    }
  }

  // ---------------------------------------------------------------------
  // From blocks to chunks

  // Zone z is relative zone zi of file f now; its blocks other than block
  // mine of the file are zero if it was cleared, and what they were otherwise.
  ghost predicate NewZone(g: Geo, store: Store, inodes: seq<Inode>, store': Store, inodes': seq<Inode>,
                          f: nat, zi: nat, z: int, cleared: bool, mine: nat)
    requires g.Valid() && InodesOk(inodes) && InodesOk(inodes') && |inodes'| == |inodes| && f < |inodes|
  {
    && DataAttached(g, store, inodes, store', inodes', f, zi, z)
    && BlocksKept(g, store, inodes, store', inodes', f, zi)
    && forall bi: nat {:trigger FileBlock(g, store', inodes'[f], bi)} ::
         InReach(g, bi) && bi / g.spz == zi && bi != mine ==>
           FileBlock(g, store', inodes'[f], bi) == if cleared then Zeros(g.bs) else ZoneBlock(g, store, z, bi % g.spz)
  }

  lemma ZoneEntered(g: Geo, store: Store, inodes: seq<Inode>, owner: map<int, Owner>,
                    store': Store, inodes': seq<Inode>, owner': map<int, Owner>, f: nat, zi: nat, z: int, mine: nat)
    requires g.Valid() && InodesOk(inodes) && InodesOk(inodes') && |inodes'| == |inodes| && f < |inodes|
    requires zi < g.MaxZones()
    requires StoreOk(g, store) && Owned(g, store, inodes, owner) && DataKept(g, store, store', owner, z)
    requires StoreOk(g, store') && Owned(g, store', inodes', owner') && z != NO_ZONE
    requires DataAttached(g, store, inodes, store', inodes', f, zi, z)
    ensures NewZone(g, store, inodes, store', inodes', f, zi, z, false, mine)
  {
    MapKeepsBlocks(g, store, inodes, owner, store', inodes', f, zi, z);
    assert ZoneOf(g, store', inodes'[f], zi) == z;
    forall bi: nat | InReach(g, bi) && bi / g.spz == zi
      ensures FileBlock(g, store', inodes'[f], bi) == ZoneBlock(g, store, z, bi % g.spz)
    {
      FileBlockIs(g, store', inodes', owner', f, bi);
      assert ZoneBlock(g, store', z, bi % g.spz) == ZoneBlock(g, store, z, bi % g.spz);
    }
  }

  // A whole zone is cleared.
  lemma ZoneCleared(g: Geo, store: Store, inodes: seq<Inode>, store1: Store, store2: Store, inodes': seq<Inode>,
                    f: nat, pos: nat, z: int)
    requires g.Valid() && InodesOk(inodes) && InodesOk(inodes') && |inodes'| == |inodes| && f < |inodes|
    requires Reach(g, pos)
    requires NewZone(g, store, inodes, store1, inodes', f, ZoneNr(g, pos), z, false, BlockNr(g, pos)) && z != NO_ZONE
    requires Cleared(g, store1, store2, inodes', f, ClearLo(g, pos, true), ClearHi(g, store1, inodes'[f], pos, true))
    ensures NewZone(g, store, inodes, store2, inodes', f, ZoneNr(g, pos), z, true, BlockNr(g, pos))
    ensures ZoneOf(g, store2, inodes'[f], ZoneNr(g, pos)) == z
  {
    var zi := ZoneNr(g, pos);
    var lo, hi := ClearLo(g, pos, true), ClearHi(g, store1, inodes'[f], pos, true);
    assert ZoneOf(g, store1, inodes'[f], zi) == z;
    DivUnique(lo, g.spz, zi, 0);
    forall f': nat, zj: nat {:trigger ZoneOf(g, store2, inodes'[f'], zj)} | f' < |inodes| && zj < g.MaxZones()
      ensures ZoneOf(g, store2, inodes'[f'], zj) == if f' == f && zj == zi then z else ZoneOf(g, store, inodes[f'], zj)
    {
      assert SlotOk(g, Data(zj));
      assert ZoneAt(g, store2, inodes'[f'], Data(zj)) == ZoneAt(g, store1, inodes'[f'], Data(zj));
    }
    forall bi: nat | InReach(g, bi)
      ensures lo <= bi < hi <==> g.spz > 1 && bi / g.spz == zi
    {
      InZone(g, zi, bi);
    }
    forall f': nat, bi: nat | f' < |inodes| && InReach(g, bi) && !(f' == f && bi / g.spz == zi)
      ensures FileBlock(g, store2, inodes'[f'], bi) == FileBlock(g, store, inodes[f'], bi)
    {
      assert FileBlock(g, store1, inodes'[f'], bi) == FileBlock(g, store, inodes[f'], bi);
    }
  }

  lemma InZone(g: Geo, zi: nat, bi: nat)
    requires g.Valid()
    ensures bi / g.spz == zi <==> zi * g.spz <= bi < (zi + 1) * g.spz
  {
    IndexSplit(g, bi);
    var q := bi / g.spz;
    if q < zi {
      MulGrows(q, zi, g.spz);
    } else if q > zi {
      MulGrows(zi, q, g.spz);
    }
  }

  // A chunk goes into a new zone.
  lemma ChunkInNew(g: Geo, store: Store, inodes: seq<Inode>, store': Store, inodes': seq<Inode>,
                   owner': map<int, Owner>, f: nat, pos: nat, data: seq<int>, z: int)
    requires g.Valid() && InodesOk(inodes) && InodesOk(inodes') && |inodes'| == |inodes| && f < |inodes|
    requires ChunkFits(g, pos, data)
    requires forall i :: 0 <= i < |data| ==> 0 <= data[i] < 256
    requires StoreOk(g, store') && Owned(g, store', inodes', owner') && z != NO_ZONE
    requires ZoneOf(g, store, inodes[f], ZoneNr(g, pos)) == NO_ZONE && inodes'[f].size == inodes[f].size
    requires forall f' :: 0 <= f' < |inodes| && f' != f ==> inodes'[f'] == inodes[f']
    requires NewZone(g, store, inodes, store', inodes', f, ZoneNr(g, pos), z, pos != inodes[f].size, BlockNr(g, pos))
    ensures var b := BlockAt(g, store', inodes'[f], BlockNr(g, pos));
      && 0 <= b < |store'|
      && var store'' := store'[b := Patch(Zeros(g.bs), pos % g.bs, data)];
      && StoreOk(g, store'') && Owned(g, store'', inodes', owner')
      && ChunkWritten(g, store, inodes[f], store'', inodes'[f], pos, data)
      && ZoneOf(g, store'', inodes'[f], ZoneNr(g, pos)) == z
      && OthersKept(g, store, inodes, store'', inodes', f)
  {
    var bi, zi := BlockNr(g, pos), ZoneNr(g, pos);
    var block := Patch(Zeros(g.bs), pos % g.bs, data);
    ZerosBlock(g.bs);
    PatchBlock(Zeros(g.bs), g.bs, pos % g.bs, data);
    assert ZoneOf(g, store', inodes'[f], zi) == z;
    BlockInStore(g, store', inodes', owner', f, bi);
    WriteData(g, store', inodes', owner', f, bi, block);
    var store'' := store'[BlockAt(g, store', inodes'[f], bi) := block];
    SameZones(g, store', store'', inodes');
    forall bj: nat | InReach(g, bj)
      ensures BlockAfter(g, store, inodes[f], FileBlock(g, store'', inodes'[f], bj), z, pos, data, bj)
    {
      assert FileBlock(g, store'', inodes'[f], bj) == if bj == bi then block else FileBlock(g, store', inodes'[f], bj);
    }
  }

  // The same trees have the same data zones.
  lemma SameZones(g: Geo, store: Store, store': Store, inodes: seq<Inode>)
    requires g.Valid() && InodesOk(inodes) && SameTree(g, store, inodes, store', inodes)
    ensures forall f: nat, zi: nat {:trigger ZoneOf(g, store', inodes[f], zi)} :: f < |inodes| && zi < g.MaxZones() ==>
              ZoneOf(g, store', inodes[f], zi) == ZoneOf(g, store, inodes[f], zi)
  {
    forall f: nat, zi: nat {:trigger ZoneOf(g, store', inodes[f], zi)} | f < |inodes| && zi < g.MaxZones()
      ensures ZoneOf(g, store', inodes[f], zi) == ZoneOf(g, store, inodes[f], zi)
    {
      assert SlotOk(g, Data(zi));
      assert ZoneAt(g, store', inodes[f], Data(zi)) == ZoneAt(g, store, inodes[f], Data(zi));
    }
  }

  // A chunk goes into a block that is there.
  lemma ChunkInPlace(g: Geo, store: Store, inodes: seq<Inode>, owner: map<int, Owner>, f: nat, pos: nat, data: seq<int>)
    requires g.Valid() && InodesOk(inodes) && f < |inodes| && ChunkFits(g, pos, data)
    requires forall i :: 0 <= i < |data| ==> 0 <= data[i] < 256
    requires StoreOk(g, store) && Owned(g, store, inodes, owner)
    requires BlockAt(g, store, inodes[f], BlockNr(g, pos)) != NO_BLOCK
    ensures var b := BlockAt(g, store, inodes[f], BlockNr(g, pos));
      && 0 <= b < |store| && |store[b]| == g.bs && store[b] == FileBlock(g, store, inodes[f], BlockNr(g, pos))
      && var block := ChunkBlock(store[b], g.bs, pos % g.bs == 0 && pos >= inodes[f].size, pos % g.bs, data);
      && var store' := store[b := block];
      && StoreOk(g, store') && Owned(g, store', inodes, owner)
      && ChunkWritten(g, store, inodes[f], store', inodes[f], pos, data)
      && OthersKept(g, store, inodes, store', inodes, f)
  {
    var bi := BlockNr(g, pos);
    BlockInStore(g, store, inodes, owner, f, bi);
    var b := BlockAt(g, store, inodes[f], bi);
    var anew := pos % g.bs == 0 && pos >= inodes[f].size;
    var block := ChunkBlock(store[b], g.bs, anew, pos % g.bs, data);
    ZerosBlock(g.bs);
    PatchBlock(if anew then Zeros(g.bs) else store[b], g.bs, pos % g.bs, data);
    WriteData(g, store, inodes, owner, f, bi, block);
    var store' := store[b := block];
    SameZones(g, store, store', inodes);
    forall bj: nat | InReach(g, bj)
      ensures BlockAfter(g, store, inodes[f], FileBlock(g, store', inodes[f], bj),
        ZoneOf(g, store', inodes[f], ZoneNr(g, pos)), pos, data, bj)
    {
      assert FileBlock(g, store', inodes[f], bj) == if bj == bi then block else FileBlock(g, store, inodes[f], bj);
    }
  }

  // ---------------------------------------------------------------------
  // A write under way

  // The blocks in the gap show what their zone held when it was free.
  ghost predicate GapShows(g: Geo, store0: Store, ino0: Inode, store: Store, ino: Inode, pos: nat)
    requires g.Valid() && |ino0.zone| == NR_ZONE_NUMS && |ino.zone| == NR_ZONE_NUMS
  {
    && ZoneOf(g, store, ino, ZoneNr(g, pos)) != NO_ZONE
    && forall bi: nat {:trigger FileBlock(g, store, ino, bi)} :: InReach(g, bi) && InGap(g, store0, ino0, pos, bi) ==>
         FileBlock(g, store, ino, bi) == ZoneBlock(g, store0, ZoneOf(g, store, ino, ZoneNr(g, pos)), bi % g.spz)
  }

  // Zones are added and not taken away.
  ghost predicate ZonesStay(g: Geo, store0: Store, ino0: Inode, store: Store, ino: Inode)
    requires g.Valid() && |ino0.zone| == NR_ZONE_NUMS && |ino.zone| == NR_ZONE_NUMS
  {
    forall zi: nat {:trigger ZoneOf(g, store, ino, zi)} ::
      zi < g.MaxZones() && ZoneOf(g, store0, ino0, zi) != NO_ZONE ==>
      ZoneOf(g, store, ino, zi) == ZoneOf(g, store0, ino0, zi)
  }

  // The zone with the last byte of a file is there.
  predicate Anchored(g: Geo, store: Store, ino: Inode)
    requires g.Valid() && |ino.zone| == NR_ZONE_NUMS
  {
    ino.size > 0 ==> ZoneOf(g, store, ino, ZoneNr(g, ino.size - 1)) != NO_ZONE
  }

  // Then there can be no bad gap.
  lemma AnchoredNoGap(g: Geo, store: Store, ino: Inode, pos: nat)
    requires g.Valid() && |ino.zone| == NR_ZONE_NUMS && Anchored(g, store, ino)
    ensures !BadGap(g, store, ino, pos)
  {
    if pos == ino.size && BlockNr(g, pos) % g.spz != 0 {
      if pos % g.bs == 0 {
        DivUnique(0, g.bs, 0, 0);
        BlockBefore(g, pos);
        SameZoneBefore(g, BlockNr(g, pos));
      } else {
        BlockStartIs(g, pos);
        DivUnique(pos - 1, g.bs, BlockNr(g, pos), pos % g.bs - 1);
      }
    }
  }

  ghost predicate Underway(g: Geo, store0: Store, ino0: Inode, store: Store, ino: Inode,
                           pos: nat, data: seq<int>, k: nat, lim: nat)
    requires g.Valid() && |ino0.zone| == NR_ZONE_NUMS && |ino.zone| == NR_ZONE_NUMS && k <= |data|
  {
    && ino.size == ino0.size
    && Progress(g, store0, ino0, store, ino, pos, data, k, lim)
    && Aligned(g, store, ino, pos, |data|, k) && ZonesStay(g, store0, ino0, store, ino)
    && MappedBelow(g, store, ino, Max(ino.size, pos + k))
    && (if k > 0 then GapShows(g, store0, ino0, store, ino, pos) else SameBlocks(g, store0, ino0, store, ino, pos))
  }

  // In the zone of pos nothing has happened yet.
  ghost predicate SameBlocks(g: Geo, store0: Store, ino0: Inode, store: Store, ino: Inode, pos: nat)
    requires g.Valid() && |ino0.zone| == NR_ZONE_NUMS && |ino.zone| == NR_ZONE_NUMS
  {
    && ZoneOf(g, store, ino, ZoneNr(g, pos)) == ZoneOf(g, store0, ino0, ZoneNr(g, pos))
    && (pos == ino0.size ==> store == store0)
  }

  lemma UnderwayStart(g: Geo, store0: Store, inodes: seq<Inode>, store: Store, f: nat, pos: nat, data: seq<int>,
                      lim: nat)
    requires g.Valid() && InodesOk(inodes) && f < |inodes| && FileOk(g, store0, inodes[f], lim) && Reach(g, pos)
    requires forall j :: 0 <= j < lim ==> Reach(g, j)
    requires
      var size := inodes[f].size;
      if pos > size then Cleared(g, store0, store, inodes, f, ClearLo(g, size, false),
        ClearHi(g, store0, inodes[f], size, false))
      else store == store0
    ensures Underway(g, store0, inodes[f], store, inodes[f], pos, data, 0, lim)
    ensures OthersKept(g, store0, inodes, store, inodes, f)
  {
    if pos > inodes[f].size {
      ClearedTail(g, store0, store, inodes, f, lim);
      SameZones(g, store0, store, inodes);
    }
    StartProgress(g, store0, inodes[f], store, pos, data, lim);
  }

  lemma UnderwayNext(g: Geo, store0: Store, ino0: Inode, store: Store, ino: Inode, store': Store, ino': Inode,
                     pos: nat, data: seq<int>, k: nat, chunk: seq<int>, lim: nat)
    requires g.Valid() && |ino0.zone| == NR_ZONE_NUMS && |ino.zone| == NR_ZONE_NUMS && |ino'.zone| == NR_ZONE_NUMS
    requires ChunkFits(g, pos + k, chunk) && k + |chunk| <= |data| && chunk == data[k..k + |chunk|]
    requires |FileBlock(g, store, ino, BlockNr(g, pos + k))| == g.bs
    requires k + |chunk| < |data| ==> (pos + k) % g.bs + |chunk| == g.bs
    requires ChunkWritten(g, store, ino, store', ino', pos + k, chunk)
    requires Underway(g, store0, ino0, store, ino, pos, data, k, lim)
    requires forall j :: 0 <= j < lim ==> Reach(g, j)
    ensures Underway(g, store0, ino0, store', ino', pos, data, k + |chunk|, lim)
  {
    ChunkProgress(g, store0, ino0, store, ino, store', ino', pos, data, k, chunk, lim);
    ChunkAligned(g, pos + k, |chunk|);
    NextMapped(g, store, ino, store', ino', pos, k, |chunk|);
    NextGap(g, store0, ino0, store, ino, store', ino', pos, |data|, k, chunk);
  }

  lemma ChunkAligned(g: Geo, p: nat, m: nat)
    requires g.Valid() && 0 < m && p % g.bs + m <= g.bs
    ensures BlockNr(g, p + m - 1) == BlockNr(g, p)
    ensures p % g.bs + m == g.bs ==> (p + m) % g.bs == 0
  {
    BlockStartIs(g, p);
    DivUnique(p + m - 1, g.bs, BlockNr(g, p), p % g.bs + m - 1);
    if p % g.bs + m == g.bs {
      DivUnique(p + m, g.bs, BlockNr(g, p) + 1, 0);
    }
  }

  lemma NextMapped(g: Geo, store: Store, ino: Inode, store': Store, ino': Inode, pos: nat, k: nat, m: nat)
    requires g.Valid() && |ino.zone| == NR_ZONE_NUMS && |ino'.zone| == NR_ZONE_NUMS && ino'.size == ino.size && m > 0
    requires forall zi: nat {:trigger ZoneOf(g, store', ino', zi)} :: zi < g.MaxZones() && zi != ZoneNr(g, pos + k) ==>
               ZoneOf(g, store', ino', zi) == ZoneOf(g, store, ino, zi)
    requires MappedBelow(g, store, ino, Max(ino.size, pos + k))
    ensures MappedBelow(g, store', ino', Max(ino.size, pos + k + m))
  {
    var end := Max(ino.size, pos + k + m);
    forall zi: nat {:trigger ZoneOf(g, store', ino', zi)} | zi < g.MaxZones() && ZoneOf(g, store', ino', zi) != NO_ZONE
      ensures zi * g.ZoneBytes() < end
    {
      ZoneStart(g, pos + k);
      assert zi != ZoneNr(g, pos + k) ==> ZoneOf(g, store, ino, zi) != NO_ZONE;
    }
  }

  lemma ZoneStart(g: Geo, p: nat)
    requires g.Valid()
    ensures ZoneNr(g, p) * g.ZoneBytes() <= p
  {
    DivDiv(p, g.bs, g.spz);
    var d := g.ZoneBytes();
    assert p == p / d * d + p % d;
  }

  lemma NextGap(g: Geo, store0: Store, ino0: Inode, store: Store, ino: Inode, store': Store, ino': Inode,
                pos: nat, size: nat, k: nat, chunk: seq<int>)
    requires g.Valid() && |ino0.zone| == NR_ZONE_NUMS && |ino.zone| == NR_ZONE_NUMS && |ino'.zone| == NR_ZONE_NUMS
    requires ChunkFits(g, pos + k, chunk) && ino.size == ino0.size && k < size
    requires |FileBlock(g, store, ino, BlockNr(g, pos + k))| == g.bs
    requires ChunkWritten(g, store, ino, store', ino', pos + k, chunk) && Aligned(g, store, ino, pos, size, k)
    requires if k > 0 then GapShows(g, store0, ino0, store, ino, pos) else SameBlocks(g, store0, ino0, store, ino, pos)
    ensures GapShows(g, store0, ino0, store', ino', pos)
  {
    if k > 0 {
      SameZoneStill(g, store, ino, store', ino', pos, pos + k);
    }
    var z := ZoneOf(g, store', ino', ZoneNr(g, pos + k));
    forall bi: nat | InReach(g, bi) && InGap(g, store0, ino0, pos, bi)
      ensures FileBlock(g, store', ino', bi) ==
        ZoneBlock(g, store0, ZoneOf(g, store', ino', ZoneNr(g, pos)), bi % g.spz)
    {
      var after := FileBlock(g, store', ino', bi);
      assert BlockAfter(g, store, ino, after, z, pos + k, chunk, bi);
      BlockNrMono(g, pos, pos + k);
      if k > 0 {
        GapKept(g, store, ino, after, z, pos, pos + k, chunk, bi);
      } else {
        GapStale(g, store, ino, after, z, pos, chunk, bi);
      }
    }
  }

  lemma BlockNrMono(g: Geo, a: nat, b: nat)
    requires g.Valid() && a <= b
    ensures BlockNr(g, a) <= BlockNr(g, b)
  {
    DivMono(a, b, g.bs);
  }

  // The first chunk shows the blocks before it as they were; later chunks do
  // not touch them.
  lemma GapStale(g: Geo, store: Store, ino: Inode, after: Block, z: int, pos: nat, chunk: seq<int>, bi: nat)
    requires ChunkFits(g, pos, chunk) && |ino.zone| == NR_ZONE_NUMS
    requires |FileBlock(g, store, ino, BlockNr(g, pos))| == g.bs
    requires BlockAfter(g, store, ino, after, z, pos, chunk, bi) && InGap(g, store, ino, pos, bi)
    ensures after == ZoneBlock(g, store, z, bi % g.spz)
  {}

  lemma GapKept(g: Geo, store: Store, ino: Inode, after: Block, z: int, pos: nat, p: nat, chunk: seq<int>, bi: nat)
    requires ChunkFits(g, p, chunk) && |ino.zone| == NR_ZONE_NUMS && |FileBlock(g, store, ino, BlockNr(g, p))| == g.bs
    requires BlockAfter(g, store, ino, after, z, p, chunk, bi) && ino.size < p && bi < BlockNr(g, p)
    ensures after == FileBlock(g, store, ino, bi)
  {}

  lemma SameZoneStill(g: Geo, store: Store, ino: Inode, store': Store, ino': Inode, pos: nat, p: nat)
    requires g.Valid() && |ino.zone| == NR_ZONE_NUMS && |ino'.zone| == NR_ZONE_NUMS && pos <= p && Reach(g, p)
    requires forall zi: nat {:trigger ZoneOf(g, store', ino', zi)} :: zi < g.MaxZones() && zi != ZoneNr(g, p) ==>
               ZoneOf(g, store', ino', zi) == ZoneOf(g, store, ino, zi)
    requires ZoneOf(g, store, ino, ZoneNr(g, p)) != NO_ZONE ==>
               ZoneOf(g, store', ino', ZoneNr(g, p)) == ZoneOf(g, store, ino, ZoneNr(g, p))
    requires ZoneOf(g, store, ino, ZoneNr(g, pos)) != NO_ZONE
    ensures ZoneOf(g, store', ino', ZoneNr(g, pos)) == ZoneOf(g, store, ino, ZoneNr(g, pos))
  {
    DivMono(pos, p, g.bs);
    DivMono(BlockNr(g, pos), BlockNr(g, p), g.spz);
  }

  ghost predicate LastMapped(g: Geo, store: Store, ino: Inode, pos: nat, k: nat)
    requires g.Valid() && |ino.zone| == NR_ZONE_NUMS && k > 0
  {
    Reach(g, pos + k - 1) && ZoneOf(g, store, ino, ZoneNr(g, pos + k - 1)) != NO_ZONE
  }

  // All the chunks that fit have been written; the size is still the old one.
  ghost predicate Ended(g: Geo, store0: Store, ino0: Inode, store: Store, ino: Inode, pos: nat, data: seq<int>, k: nat,
                        lim: nat)
    requires g.Valid() && |ino0.zone| == NR_ZONE_NUMS && |ino.zone| == NR_ZONE_NUMS && k <= |data|
  {
    && ino.size == ino0.size
    && Progress(g, store0, ino0, store, ino, pos, data, k, lim)
    && ZonesStay(g, store0, ino0, store, ino)
    && MappedBelow(g, store, ino, Max(ino.size, pos + k))
    && (k > 0 ==> LastMapped(g, store, ino, pos, k) && GapShows(g, store0, ino0, store, ino, pos))
  }

  lemma UnderwayEnds(g: Geo, store0: Store, ino0: Inode, store: Store, ino: Inode, pos: nat, data: seq<int>, lim: nat)
    requires g.Valid() && |ino0.zone| == NR_ZONE_NUMS && |ino.zone| == NR_ZONE_NUMS
    requires Underway(g, store0, ino0, store, ino, pos, data, |data|, lim)
    ensures Ended(g, store0, ino0, store, ino, pos, data, |data|, lim)
  {}

  // A chunk that found no room leaves the file as it was.
  lemma ChunkFailed(g: Geo, store0: Store, ino0: Inode, store: Store, inodes: seq<Inode>, store': Store,
                    inodes': seq<Inode>, f: nat, pos: nat, data: seq<int>, k: nat, lim: nat)
    requires g.Valid() && InodesOk(inodes) && InodesOk(inodes') && |inodes'| == |inodes| && f < |inodes|
    requires |ino0.zone| == NR_ZONE_NUMS && k <= |data| && Reach(g, pos) && inodes'[f].size == inodes[f].size
    requires forall j :: 0 <= j < lim ==> Reach(g, j)
    requires Ended(g, store0, ino0, store, inodes[f], pos, data, k, lim)
    requires DataSame(g, store, inodes, store', inodes') && BlocksKept(g, store, inodes, store', inodes', -1, 0)
    ensures Ended(g, store0, ino0, store', inodes'[f], pos, data, k, lim)
  {
    forall j: nat | j < lim ensures Byte(g, store', inodes'[f], j) == Byte(g, store, inodes[f], j) {
      assert Reach(g, j);
      assert FileBlock(g, store', inodes'[f], BlockNr(g, j)) == FileBlock(g, store, inodes[f], BlockNr(g, j));
    }
    forall zi: nat | zi < g.MaxZones() ensures ZoneOf(g, store', inodes'[f], zi) == ZoneOf(g, store, inodes[f], zi) {}
    forall bi: nat | InReach(g, bi)
      ensures FileBlock(g, store', inodes'[f], bi) == FileBlock(g, store, inodes[f], bi) {}
  }

  // The outcome of a write of k bytes.
  ghost predicate Wrote(g: Geo, store0: Store, ino0: Inode, store: Store, ino: Inode, pos: nat, data: seq<int>, k: nat)
    requires g.Valid() && |ino0.zone| == NR_ZONE_NUMS && |ino.zone| == NR_ZONE_NUMS && k <= |data|
  {
    && Written(g, store0, ino0, store, ino, pos, data, k)
    && ZonesStay(g, store0, ino0, store, ino)
    && (Anchored(g, store0, ino0) && (k > 0 || pos <= ino0.size) ==> Anchored(g, store, ino))
    && (k > 0 ==> GapShows(g, store0, ino0, store, ino, pos))
  }

  // The bytes written are there, whatever shows in the gap before them.
  lemma WroteBack(g: Geo, store0: Store, ino0: Inode, store: Store, ino: Inode, pos: nat, data: seq<int>, k: nat)
    requires g.Valid() && |ino0.zone| == NR_ZONE_NUMS && |ino.zone| == NR_ZONE_NUMS && k <= |data|
    requires Wrote(g, store0, ino0, store, ino, pos, data, k)
    ensures Slice(Contents(g, store, ino), pos, k) == data[..k]
  {
    forall i: nat | i < k ensures Byte(g, store, ino, pos + i) == data[i] {
      DivMono(pos, pos + i, g.bs);
      assert Byte(g, store, ino, pos + i) == Want(g, store0, ino0, pos, data, k, pos + i);
    }
  }

  lemma SizeSet(g: Geo, store0: Store, ino0: Inode, store: Store, ino: Inode, pos: nat, data: seq<int>, k: nat,
                lim: nat)
    requires g.Valid() && |ino0.zone| == NR_ZONE_NUMS && |ino.zone| == NR_ZONE_NUMS && k <= |data|
    requires Ended(g, store0, ino0, store, ino, pos, data, k, lim) && Max(ino0.size, pos + k) <= lim
    requires ino0.size > 0 ==> Reach(g, ino0.size - 1)
    ensures var ino' := ino.(size := Max(ino0.size, pos + k));
      Wrote(g, store0, ino0, store, ino', pos, data, k) && FileOk(g, store, ino', lim)
  {
    SizeFrame(g, store, ino, Max(ino0.size, pos + k));
    FinishProgress(g, store0, ino0, store, ino, pos, data, k, lim);
    if Anchored(g, store0, ino0) && (k > 0 || pos <= ino0.size) {
      StillAnchored(g, store0, ino0, store, ino, pos, k);
    }
  }

  lemma StillAnchored(g: Geo, store0: Store, ino0: Inode, store: Store, ino: Inode, pos: nat, k: nat)
    requires g.Valid() && |ino0.zone| == NR_ZONE_NUMS && |ino.zone| == NR_ZONE_NUMS
    requires ZonesStay(g, store0, ino0, store, ino) && (k > 0 ==> LastMapped(g, store, ino, pos, k))
    requires ino0.size > 0 ==> Reach(g, ino0.size - 1)
    requires Anchored(g, store0, ino0) && (k > 0 || pos <= ino0.size)
    ensures var end := Max(ino0.size, pos + k); end > 0 ==> ZoneOf(g, store, ino, ZoneNr(g, end - 1)) != NO_ZONE
  {}

  // Some byte that the file shows in the gap is not zero.
  ghost predicate GapDirty(g: Geo, store0: Store, ino0: Inode, z: int, pos: nat)
    requires g.Valid() && |ino0.zone| == NR_ZONE_NUMS
  {
    exists j: nat :: j < pos && InGap(g, store0, ino0, pos, BlockNr(g, j)) && DirtyAt(g, store0, z, j)
  }

  // When a write is right, exactly: not if it begins at the end of a file, in
  // the middle of a zone that was missing and whose blocks before that place
  // are not blank.
  lemma WriteRightIff(g: Geo, store0: Store, ino0: Inode, store: Store, ino: Inode, pos: nat, data: seq<int>, k: nat)
    requires g.Valid() && |ino0.zone| == NR_ZONE_NUMS && |ino.zone| == NR_ZONE_NUMS && k <= |data| && Reach(g, pos)
    requires Wrote(g, store0, ino0, store, ino, pos, data, k)
    ensures Contents(g, store, ino) == Spliced(Contents(g, store0, ino0), pos, data[..k]) <==>
            !(k > 0 && GapDirty(g, store0, ino0, ZoneOf(g, store, ino, ZoneNr(g, pos)), pos))
  {
    var z := ZoneOf(g, store, ino, ZoneNr(g, pos));
    var c', r := Contents(g, store, ino), Spliced(Contents(g, store0, ino0), pos, data[..k]);
    forall j: nat | j < |c'|
      ensures j < |r| == |c'| && (c'[j] == r[j] <==> !DirtyGapAt(g, store0, ino0, z, pos, k, j))
    {
      WriteRightAt(g, store0, ino0, store, ino, pos, data, k, j);
    }
    if c' != r {
      var j :| 0 <= j < |c'| && c'[j] != r[j];
      assert DirtyGapAt(g, store0, ino0, z, pos, k, j);
    } else if k > 0 && GapDirty(g, store0, ino0, z, pos) {
      var j: nat :| j < pos && InGap(g, store0, ino0, pos, BlockNr(g, j)) && DirtyAt(g, store0, z, j);
      assert DirtyGapAt(g, store0, ino0, z, pos, k, j);
    }
  }

  predicate DirtyGapAt(g: Geo, store0: Store, ino0: Inode, z: int, pos: nat, k: nat, j: nat)
    requires g.Valid() && |ino0.zone| == NR_ZONE_NUMS
    ensures DirtyGapAt(g, store0, ino0, z, pos, k, j) ==> j < pos
  {
    k > 0 && j < pos && InGap(g, store0, ino0, pos, BlockNr(g, j)) && DirtyAt(g, store0, z, j)
  }

  lemma WriteRightAt(g: Geo, store0: Store, ino0: Inode, store: Store, ino: Inode, pos: nat, data: seq<int>, k: nat,
                     j: nat)
    requires g.Valid() && |ino0.zone| == NR_ZONE_NUMS && |ino.zone| == NR_ZONE_NUMS && k <= |data| && Reach(g, pos)
    requires Wrote(g, store0, ino0, store, ino, pos, data, k) && j < ino.size
    ensures var r := Spliced(Contents(g, store0, ino0), pos, data[..k]);
      j < |r| == ino.size &&
      (Byte(g, store, ino, j) == r[j] <==>
        !DirtyGapAt(g, store0, ino0, ZoneOf(g, store, ino, ZoneNr(g, pos)), pos, k, j))
  {
    var c := Contents(g, store0, ino0);
    SplicedSize(c, pos, data[..k]);
    SplicedAt(c, pos, data[..k], j);
    BlockOrder(g, j, pos);
    if k > 0 && InGap(g, store0, ino0, pos, BlockNr(g, j)) {
      GapByte(g, store0, ino0, store, ino, pos, j);
    } else {
      assert Byte(g, store, ino, j) == Want(g, store0, ino0, pos, data, k, j);
    }
  }

  predicate DirtyAt(g: Geo, store0: Store, z: int, j: nat)
    requires g.Valid()
  {
    var b := ZoneBlock(g, store0, z, BlockNr(g, j) % g.spz);
    j % g.bs < |b| && b[j % g.bs] != 0
  }

  // A byte in the gap was zero before and is stale now.
  lemma GapByte(g: Geo, store0: Store, ino0: Inode, store: Store, ino: Inode, pos: nat, j: nat)
    requires g.Valid() && |ino0.zone| == NR_ZONE_NUMS && |ino.zone| == NR_ZONE_NUMS && Reach(g, pos)
    requires GapShows(g, store0, ino0, store, ino, pos) && InGap(g, store0, ino0, pos, BlockNr(g, j))
    ensures j < pos && Byte(g, store0, ino0, j) == 0
    ensures Byte(g, store, ino, j) != 0 <==> DirtyAt(g, store0, ZoneOf(g, store, ino, ZoneNr(g, pos)), j)
  {
    assert InReach(g, BlockNr(g, j));
    BlockOrder(g, j, pos);
    assert FileBlock(g, store0, ino0, BlockNr(g, j)) == Zeros(g.bs);
  }
}
