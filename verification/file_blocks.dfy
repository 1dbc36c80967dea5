// A file as a sequence of blocks: what its zone tree leads to, with zeros
// where there is no zone.

module FileBlocks {
  import opened Blocks
  import opened ZoneTree

  // read_map(): the block that holds block bi of the file, or NO_BLOCK.
  function BlockAt(g: Geo, store: Store, ino: Inode, bi: nat): (b: int)
    requires g.Valid() && |ino.zone| == NR_ZONE_NUMS
  {
    var z := ZoneOf(g, store, ino, bi / g.spz);
    if z == NO_ZONE then NO_BLOCK else FirstBlock(g, z) + bi % g.spz
  }

  function FileBlock(g: Geo, store: Store, ino: Inode, bi: nat): Block
    requires g.Valid() && |ino.zone| == NR_ZONE_NUMS
  {
    var b := BlockAt(g, store, ino, bi);
    if b <= NO_BLOCK || b >= |store| then Zeros(g.bs) else store[b]
  }

  // Block indices that a zone tree can reach.
  predicate InReach(g: Geo, bi: nat)
    requires g.Valid()
  {
    bi / g.spz < g.MaxZones()
  }

  // The zone of a data block is in range, so the block is on the device.
  lemma BlockInStore(g: Geo, store: Store, inodes: seq<Inode>, owner: map<int, Owner>, f: nat, bi: nat)
    requires g.Valid() && InodesOk(inodes) && StoreOk(g, store) && Owned(g, store, inodes, owner)
    requires f < |inodes| && InReach(g, bi)
    ensures var z := ZoneOf(g, store, inodes[f], bi / g.spz);
      z != NO_ZONE ==>
        && z in owner && owner[z] == Owner(f, Data(bi / g.spz)) && g.first <= z < g.nzones
        && NO_BLOCK < BlockAt(g, store, inodes[f], bi) < |store|
    ensures IsBlock(FileBlock(g, store, inodes[f], bi), g.bs)
  {
    var z := ZoneAt(g, store, inodes[f], Data(bi / g.spz));
    ZerosBlock(g.bs);
    if z != NO_ZONE {
      ZoneFits(g, store, z);
      FirstBlockGrows(g, 0, z);
    }
  }

  // Blocks of different zones, or at different places in one, are different.
  lemma ZoneBlocksApart(g: Geo, z: int, o: nat, z': int, o': nat)
    requires g.Valid() && o < g.spz && o' < g.spz && (z != z' || o != o')
    ensures FirstBlock(g, z) + o != FirstBlock(g, z') + o'
  {
    if z < z' {
      FirstBlockGrows(g, z, z');
    } else if z > z' {
      FirstBlockGrows(g, z', z);
    }
  }

  // Rewriting a block of a zone that is no indirect zone changes no tree.
  lemma TreeFrame(g: Geo, store: Store, ino: Inode, z: int, o: nat, data: Block, sl: Slot)
    requires g.Valid() && |ino.zone| == NR_ZONE_NUMS && SlotOk(g, sl) && o < g.spz
    requires 0 <= FirstBlock(g, z) + o < |store| && NotIndirect(g, store, ino, z)
    ensures ZoneAt(g, store[FirstBlock(g, z) + o := data], ino, sl) == ZoneAt(g, store, ino, sl)
  {
    if o == 0 {
      ZoneAtFrame(g, store, ino, z, data, sl);
    } else {
      var store' := store[FirstBlock(g, z) + o := data];
      forall w, i: nat ensures Entry(g, store', w, i) == Entry(g, store, w, i) {
        ZoneBlocksApart(g, z, o, w, 0);
        EntryFrame(g, store, FirstBlock(g, z) + o, data, w, i);
      }
    }
  }

  // All files look the same, block by block, except perhaps where p holds.
  ghost predicate SameTree(g: Geo, store: Store, inodes: seq<Inode>, store': Store, inodes': seq<Inode>)
    requires g.Valid() && InodesOk(inodes) && InodesOk(inodes') && |inodes'| == |inodes|
  {
    forall f, sl :: 0 <= f < |inodes| && SlotOk(g, sl) ==>
      ZoneAt(g, store', inodes'[f], sl) == ZoneAt(g, store, inodes[f], sl)
  }

  lemma SameOwned(g: Geo, store: Store, inodes: seq<Inode>, store': Store, inodes': seq<Inode>, owner: map<int, Owner>)
    requires g.Valid() && InodesOk(inodes) && InodesOk(inodes') && |inodes'| == |inodes|
    requires Owned(g, store, inodes, owner) && SameTree(g, store, inodes, store', inodes')
    ensures Owned(g, store', inodes', owner)
  {
    forall f, sl | 0 <= f < |inodes| && SlotOk(g, sl) && ZoneAt(g, store', inodes'[f], sl) != NO_ZONE
      ensures ZoneAt(g, store', inodes'[f], sl) in owner && owner[ZoneAt(g, store', inodes'[f], sl)] == Owner(f, sl)
    {
      assert ZoneAt(g, store', inodes'[f], sl) == ZoneAt(g, store, inodes[f], sl);
    }
    forall z | z in owner ensures ZoneAt(g, store', inodes'[owner[z].file], owner[z].slot) == z {
      assert ZoneAt(g, store, inodes[owner[z].file], owner[z].slot) == z;
    }
  }

  // Writing a data block of a file.
  lemma WriteData(g: Geo, store: Store, inodes: seq<Inode>, owner: map<int, Owner>, f: nat, bi: nat, data: Block)
    requires g.Valid() && InodesOk(inodes) && StoreOk(g, store) && Owned(g, store, inodes, owner)
    requires f < |inodes| && InReach(g, bi) && BlockAt(g, store, inodes[f], bi) != NO_BLOCK && IsBlock(data, g.bs)
    ensures var b := BlockAt(g, store, inodes[f], bi);
      && 0 <= b < |store|
      && StoreOk(g, store[b := data]) && SameTree(g, store, inodes, store[b := data], inodes)
      && Owned(g, store[b := data], inodes, owner)
      && forall f': nat, bi': nat {:trigger FileBlock(g, store[b := data], inodes[f'], bi')} ::
           f' < |inodes| && InReach(g, bi') ==>
             FileBlock(g, store[b := data], inodes[f'], bi') ==
               if f' == f && bi' == bi then data else FileBlock(g, store, inodes[f'], bi')
  {
    BlockInStore(g, store, inodes, owner, f, bi);
    var z := ZoneOf(g, store, inodes[f], bi / g.spz);
    var b := BlockAt(g, store, inodes[f], bi);
    var store' := store[b := data];
    forall f', sl | 0 <= f' < |inodes| && SlotOk(g, sl)
      ensures ZoneAt(g, store', inodes[f'], sl) == ZoneAt(g, store, inodes[f'], sl)
    {
      OwnedNotIndirect(g, store, inodes, owner, f', z);
      TreeFrame(g, store, inodes[f'], z, bi % g.spz, data, sl);
    }
    SameOwned(g, store, inodes, store', inodes, owner);
    forall f': nat, bi': nat | f' < |inodes| && InReach(g, bi')
      ensures FileBlock(g, store', inodes[f'], bi') ==
              if f' == f && bi' == bi then data else FileBlock(g, store, inodes[f'], bi')
    {
      WriteDataAt(g, store, store', inodes, owner, f, bi, data, f', bi');
    }
  }

  lemma WriteDataAt(g: Geo, store: Store, store': Store, inodes: seq<Inode>, owner: map<int, Owner>,
                    f: nat, bi: nat, data: Block, f': nat, bi': nat)
    requires g.Valid() && InodesOk(inodes) && StoreOk(g, store) && Owned(g, store, inodes, owner)
    requires f < |inodes| && InReach(g, bi) && BlockAt(g, store, inodes[f], bi) != NO_BLOCK
    requires f' < |inodes| && InReach(g, bi')
    requires 0 <= BlockAt(g, store, inodes[f], bi) < |store|
    requires store' == store[BlockAt(g, store, inodes[f], bi) := data]
    requires ZoneAt(g, store', inodes[f'], Data(bi' / g.spz)) == ZoneAt(g, store, inodes[f'], Data(bi' / g.spz))
    ensures FileBlock(g, store', inodes[f'], bi') ==
            if f' == f && bi' == bi then data else FileBlock(g, store, inodes[f'], bi')
  {
    BlockInStore(g, store, inodes, owner, f, bi);
    BlockInStore(g, store, inodes, owner, f', bi');
    var z, z' := ZoneOf(g, store, inodes[f], bi / g.spz), ZoneOf(g, store, inodes[f'], bi' / g.spz);
    if z' != NO_ZONE && !(f' == f && bi' == bi) {
      if z == z' {
        IndexSplit(g, bi);
        IndexSplit(g, bi');
      }
      ZoneBlocksApart(g, z, bi % g.spz, z', bi' % g.spz);
    }
  }

  lemma IndexSplit(g: Geo, bi: nat)
    requires g.Valid()
    ensures bi == FirstBlock(g, bi / g.spz) + bi % g.spz
  {}

  // ---------------------------------------------------------------------
  // Changing the map and not the data

  // Block o of zone w.
  function ZoneBlock(g: Geo, store: Store, w: int, o: nat): Block {
    var b := FirstBlock(g, w) + o;
    if b < 0 || b >= |store| then Zeros(g.bs) else store[b]
  }

  lemma FileBlockIs(g: Geo, store: Store, inodes: seq<Inode>, owner: map<int, Owner>, f: nat, bi: nat)
    requires g.Valid() && InodesOk(inodes) && StoreOk(g, store) && Owned(g, store, inodes, owner)
    requires f < |inodes| && InReach(g, bi)
    ensures var z := ZoneOf(g, store, inodes[f], bi / g.spz);
      FileBlock(g, store, inodes[f], bi) == if z == NO_ZONE then Zeros(g.bs) else ZoneBlock(g, store, z, bi % g.spz)
  {
    BlockInStore(g, store, inodes, owner, f, bi);
  }

  // The blocks of data zones, and those of zone z, are as before.
  ghost predicate DataKept(g: Geo, store: Store, store': Store, owner: map<int, Owner>, z: int)
    requires g.Valid()
  {
    && |store'| == |store|
    && forall w: int, o: nat {:trigger ZoneBlock(g, store', w, o)} ::
         o < g.spz && ((w in owner && owner[w].slot.Data?) || w == z) ==>
           ZoneBlock(g, store', w, o) == ZoneBlock(g, store, w, o)
  }

  // Rewriting the first block of some other zone keeps them.
  lemma DataKeptFrame(g: Geo, store: Store, store': Store, owner: map<int, Owner>, z: int, x: int, data: Block)
    requires g.Valid() && DataKept(g, store, store', owner, z)
    requires x != z && (x in owner ==> !owner[x].slot.Data?) && 0 <= FirstBlock(g, x) < |store|
    ensures DataKept(g, store, store'[FirstBlock(g, x) := data], owner, z)
  {
    forall w: int, o: nat | o < g.spz && ((w in owner && owner[w].slot.Data?) || w == z)
      ensures ZoneBlock(g, store'[FirstBlock(g, x) := data], w, o) == ZoneBlock(g, store, w, o)
    {
      ZoneBlocksApart(g, x, 0, w, o);
      assert ZoneBlock(g, store', w, o) == ZoneBlock(g, store, w, o);
    }
  }

  // Every data zone of every file is where it was, except that relative zone
  // zi of file f is now zone z.
  ghost predicate DataAttached(g: Geo, store: Store, inodes: seq<Inode>, store': Store, inodes': seq<Inode>,
                               f: nat, zi: nat, z: int)
    requires g.Valid() && InodesOk(inodes) && InodesOk(inodes') && |inodes'| == |inodes|
  {
    forall f': nat, zj: nat {:trigger ZoneOf(g, store', inodes'[f'], zj)} :: f' < |inodes| && zj < g.MaxZones() ==>
      ZoneOf(g, store', inodes'[f'], zj) == if f' == f && zj == zi then z else ZoneOf(g, store, inodes[f'], zj)
  }

  // Every data zone of every file is where it was.
  ghost predicate DataSame(g: Geo, store: Store, inodes: seq<Inode>, store': Store, inodes': seq<Inode>)
    requires g.Valid() && InodesOk(inodes) && InodesOk(inodes') && |inodes'| == |inodes|
  {
    forall f': nat, zj: nat {:trigger ZoneOf(g, store', inodes'[f'], zj)} :: f' < |inodes| && zj < g.MaxZones() ==>
      ZoneOf(g, store', inodes'[f'], zj) == ZoneOf(g, store, inodes[f'], zj)
  }

  lemma AttachedData(g: Geo, store: Store, inodes: seq<Inode>, store': Store, inodes': seq<Inode>, f: nat, sl: Slot,
                     z: int)
    requires g.Valid() && InodesOk(inodes) && InodesOk(inodes') && |inodes'| == |inodes| && f < |inodes|
    requires SlotOk(g, sl)
    requires Attached(g, store, inodes, store', inodes', f, sl, z)
    ensures sl.Data? ==> DataAttached(g, store, inodes, store', inodes', f, sl.zi, z)
    ensures !sl.Data? ==> DataSame(g, store, inodes, store', inodes')
  {
    forall f': nat, zj: nat {:trigger ZoneOf(g, store', inodes'[f'], zj)} | f' < |inodes| && zj < g.MaxZones()
      ensures ZoneOf(g, store', inodes'[f'], zj) ==
              if f' == f && sl == Data(zj) then z else ZoneOf(g, store, inodes[f'], zj)
    {
      assert SlotOk(g, Data(zj));
      assert ZoneAt(g, store', inodes'[f'], Data(zj)) ==
        if f' == f && sl == Data(zj) then z else ZoneAt(g, store, inodes[f'], Data(zj));
    }
  }

  // All files have the contents they had, except in relative zone zi of f.
  ghost predicate BlocksKept(g: Geo, store: Store, inodes: seq<Inode>, store': Store, inodes': seq<Inode>, f: int,
                             zi: int)
    requires g.Valid() && InodesOk(inodes) && InodesOk(inodes') && |inodes'| == |inodes|
  {
    forall f': nat, bi: nat {:trigger FileBlock(g, store', inodes'[f'], bi)} ::
      f' < |inodes| && InReach(g, bi) && !(f' == f && bi / g.spz == zi) ==>
        FileBlock(g, store', inodes'[f'], bi) == FileBlock(g, store, inodes[f'], bi)
  }

  lemma MapKeepsBlocks(g: Geo, store: Store, inodes: seq<Inode>, owner: map<int, Owner>, store': Store,
                       inodes': seq<Inode>, f: int, zi: int, z: int)
    requires g.Valid() && InodesOk(inodes) && InodesOk(inodes') && |inodes'| == |inodes|
    requires StoreOk(g, store) && Owned(g, store, inodes, owner) && DataKept(g, store, store', owner, z)
    requires if 0 <= f < |inodes| && 0 <= zi < g.MaxZones()
             then DataAttached(g, store, inodes, store', inodes', f, zi, z)
             else DataSame(g, store, inodes, store', inodes')
    ensures BlocksKept(g, store, inodes, store', inodes', f, zi)
  {
    forall f': nat, bi: nat | f' < |inodes| && InReach(g, bi) && !(f' == f && bi / g.spz == zi)
      ensures FileBlock(g, store', inodes'[f'], bi) == FileBlock(g, store, inodes[f'], bi)
    {
      BlockInStore(g, store, inodes, owner, f', bi);
      var w := ZoneOf(g, store, inodes[f'], bi / g.spz);
      assert ZoneOf(g, store', inodes'[f'], bi / g.spz) == w;
      if w != NO_ZONE {
        assert ZoneBlock(g, store', w, bi % g.spz) == ZoneBlock(g, store, w, bi % g.spz);
      }
    }
  }
}
