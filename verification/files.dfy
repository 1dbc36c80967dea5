// Files on a volume: zones are allocated and freed through the zone bit map,
// entered in the zone trees, and filled with data block by block.

module Files {
  import opened BufferPool
  import opened Blocks
  import opened BitMaps
  import opened Volumes
  import opened ZoneTree
  import opened FileBlocks
  import opened FileBytes
  import opened FileWrites
  import opened ZoneSpace
  import opened TreeSteps
  import opened WriteSteps

  datatype Reply = OK | ENOSPC | EFBIG

  lemma SliceNone(c: seq<int>, p: nat)
    ensures Slice(c, p, 0) == []
  {}

  lemma SliceMore(c: seq<int>, p: nat, data: seq<int>, q: nat, d: seq<int>)
    requires data == Slice(c, p, |data|) && q == p + |data| && q + |d| <= |c| && d == c[q..q + |d|]
    ensures data + d == Slice(c, p, |data + d|)
  {}

  // Reading stops when enough has been read, or at the end.
  lemma SliceDone(c: seq<int>, p: nat, n: nat, data: seq<int>)
    requires |data| <= n && data == Slice(c, p, |data|) && (|data| == n || p + |data| >= |c|)
    ensures data == Slice(c, p, n)
  {}

  class FileSystem {
    const g: Geo
    const maxSize: nat
    const vol: Volume
    const zmap: BitMap
    const inode: array<Inode>
    // Who uses each zone in use.
    ghost var owner: map<int, Owner>

    // The trees are proper and no zone is used twice.
    ghost predicate Storage()
      reads this, inode, vol.Repr()
    {
      && g.Valid() && vol.Valid() && {this, inode, zmap, zmap.words, zmap.dirt} !! vol.Repr()
      && StoreOk(g, vol.store) && InodesOk(inode[..]) && Owned(g, vol.store, inode[..], owner)
    }

    // The bit map says that these are the zones in use.
    ghost predicate MapIs(busy: set<int>)
      reads zmap, zmap.words
    {
      && g.Valid() && zmap.Valid() && g.nzones - g.first + 1 <= zmap.blocks * BITS_PER_BLOCK && zmap.Busy(0)
      && forall z :: g.first <= z < g.nzones ==> (zmap.Busy(z - (g.first - 1)) <==> z in busy)
    }

    // A freshly made file system: no zone in use, every file empty.
    constructor (g: Geo, maxSize: nat, vol: Volume, zmap: BitMap, files: nat)
      requires g.Valid() && vol.Valid() && {zmap, zmap.words, zmap.dirt} !! vol.Repr() && StoreOk(g, vol.store)
      requires zmap.Valid() && g.nzones - g.first + 1 <= zmap.blocks * BITS_PER_BLOCK && zmap.Busy(0)
      requires forall n :: 1 <= n <= g.nzones - g.first ==> !zmap.Busy(n)
      requires maxSize <= g.MaxZones() * g.ZoneBytes()
      ensures this.g == g && this.maxSize == maxSize && this.vol == vol && this.zmap == zmap
      ensures Valid() && owner == map[] && AllAnchored() && fresh(inode)
      ensures inode[..] == seq(files, _ => EMPTY)
    {
      this.g, this.maxSize, this.vol, this.zmap := g, maxSize, vol, zmap;
      inode := new Inode[files](_ => EMPTY);
      owner := map[];
      new;
      NothingOwned(g, vol.store, files);
      assert inode[..] == seq(files, _ => EMPTY);
    }

    // alloc_zone()
    method AllocZone(hint: int, ghost busy: set<int>) returns (z: int)
      requires MapIs(busy)
      modifies zmap.words, zmap.dirt
      ensures z == NextZone(g, busy, hint)
      ensures MapIs(if z == NO_ZONE then busy else busy + {z})
    {
      hide BitMap.Busy, NextZone;
      var bit := (hint - (g.first - 1)) % 0x10000;
      var b := zmap.AllocBit(g.nzones - g.first + 1, bit);
      if b == NO_BIT {
        forall w | g.first <= w < g.nzones ensures w in busy {
          assert old(zmap.Busy(w - (g.first - 1)));
        }
        return NO_ZONE;
      }
      z := g.first - 1 + b;
      assert z !in busy;
      forall w | g.first <= w < g.nzones && old(zmap.Busy(w - (g.first - 1))) ensures w in busy {}
      NextZoneIs(g, busy, hint, z);
    }

    // A zone for an indirect block, besides z: any will do.
    method AllocIndirect(hint: int, ghost z: int) returns (w: int)
      requires Storage() && Pending(z)
      modifies zmap.words, zmap.dirt
      ensures Storage() && (w == NO_ZONE ==> Room(g, owner) == 1)
      ensures w != NO_ZONE ==> g.first <= w < g.nzones && w !in owner && w != z
      ensures MapIs(if w == NO_ZONE then owner.Keys + {z} else owner.Keys + {z} + {w})
    {
      hide MapIs, NextZone, Room, StoreOk, Owned;
      NextBesides(g, vol.store, inode[..], owner, z, hint);
      w := AllocZone(hint, owner.Keys + {z});
    }

    // Entry i of the indirect block in zone z.
    method ReadEntry(z: int, i: nat) returns (e: int)
      requires Storage() && 0 < z < g.nzones && i < g.Inds()
      modifies vol.Repr() - {vol}
      ensures Storage() && e == Entry(g, vol.store, z, i)
    {
      EntryAt(g, vol.store, z, i);
      var data := vol.ReadBlock(FirstBlock(g, z), INDIRECT_BLOCK);
      e := Ind(data, i);
    }

    // The zone where an indirect zone is recorded, from the inode or from the
    // double indirect block.
    method Holder(f: nat, zone: nat) returns (z: int)
      requires Storage() && f < inode.Length && NR_DZONE_NUM <= zone < g.MaxZones()
      modifies vol.Repr() - {vol}
      ensures Storage() && z == ZoneAt(g, vol.store, inode[f], HolderSlot(g, zone))
      ensures z == NO_ZONE || g.first <= z < g.nzones
    {
      var excess := zone - NR_DZONE_NUM;
      HolderZone(g, vol.store, inode[f], zone);
      ghost var sl := HolderSlot(g, zone);
      assert ZoneAt(g, vol.store, inode[..][f], sl) != NO_ZONE ==> ZoneAt(g, vol.store, inode[..][f], sl) in owner;
      if excess < g.Inds() {
        z := inode[f].zone[SINGLE];
      } else {
        z := inode[f].zone[DOUBLE];
        assert z == ZoneAt(g, vol.store, inode[..][f], Double);
        if z != NO_ZONE {
          z := ReadEntry(z, (excess - g.Inds()) / g.Inds());
        }
      }
    }

    // The zone of a relative zone number, from the inode or an indirect block.
    method FindZone(f: nat, zone: nat) returns (z: int)
      requires Storage() && f < inode.Length && zone < g.MaxZones()
      modifies vol.Repr() - {vol}
      ensures Storage() && z == ZoneOf(g, vol.store, inode[f], zone)
    {
      if zone < NR_DZONE_NUM {
        return inode[f].zone[zone];
      }
      HolderZone(g, vol.store, inode[f], zone);
      z := Holder(f, zone);
      if z != NO_ZONE {
        z := ReadEntry(z, HolderIndex(g, zone));
      }
    }

    // read_map()
    method ReadMap(f: nat, position: nat) returns (b: int)
      requires Storage() && f < inode.Length && Reach(g, position)
      modifies vol.Repr() - {vol}
      ensures Storage() && b == BlockAt(g, vol.store, inode[f], BlockNr(g, position))
    {
      var z := FindZone(f, ZoneNr(g, position));
      return if z == NO_ZONE then NO_BLOCK else FirstBlock(g, z) + BlockNr(g, position) % g.spz;
    }

    // free_zone()
    method FreeZone(z: int, ghost busy: set<int>) returns (r: Freed)
      requires MapIs(busy) && (z == NO_ZONE || g.first <= z < g.nzones)
      modifies zmap.words, zmap.dirt
      ensures r == PanicNotInUse <==> z != NO_ZONE && z !in busy
      ensures r == Freed ==> MapIs(busy - {z})
    {
      if z == NO_ZONE {
        return Freed;
      }
      r := zmap.FreeBit(z - (g.first - 1));
    }

    // ---------------------------------------------------------------------
    // write_map()

    // A zone that has just been allocated and is in no tree yet.
    ghost predicate Pending(z: int)
      reads this, zmap, zmap.words
    {
      MapIs(owner.Keys + {z}) && z !in owner && g.first <= z < g.nzones
    }

    // Zones in use stay in use, for the same purpose.
    ghost predicate Extends(was: map<int, Owner>)
      reads this`owner
    {
      forall w :: w in was ==> w in owner && owner[w] == was[w]
    }

    // Hang the fresh zone w into the inode, as an empty indirect block.
    method EnterTop(f: nat, top: nat, w: int, ghost z: int)
      requires Storage() && f < inode.Length && (top == SINGLE || top == DOUBLE) && inode[f].zone[top] == NO_ZONE
      requires g.first <= w < g.nzones && w !in owner && z !in owner && w != z
      modifies this`owner, inode, vol.Repr()
      ensures Storage() && OnlyZones(old(inode[..]), inode[..], f)
      ensures owner == old(owner)[w := Owner(f, if top == SINGLE then Single else Double)]
      ensures inode[f].zone[top] == w
      ensures DataSame(g, old(vol.store), old(inode[..]), vol.store, inode[..])
      ensures DataKept(g, old(vol.store), vol.store, old(owner), z)
    {
      ghost var sl := if top == SINGLE then Single else Double;
      ghost var inodes, store := inode[..], vol.store;
      AttachIndirect(g, store, inodes, owner, f, top, w);
      inode[f] := inode[f].(zone := inode[f].zone[top := w]);
      assert inode[..] == inodes[f := inode[f]];
      vol.WriteWhole(FirstBlock(g, w), Zeros(g.bs), INDIRECT_BLOCK);
      ZerosBlock(g.bs);
      AttachedAll(g, store, inodes, vol.store, inode[..], owner, f, sl, w);
      DataKeptFrame(g, store, store, owner, z, w, Zeros(g.bs));
      owner := owner[w := Owner(f, sl)];
    }

    // A fresh single or double indirect zone, hung into the inode, if there is
    // one besides z.
    method HangTop(f: nat, top: nat, ghost z: int, ghost path: seq<Slot>) returns (w: int)
      requires Storage() && Pending(z) && (if top == SINGLE then Single else Double) in path
      requires f < inode.Length && (top == SINGLE || top == DOUBLE) && inode[f].zone[top] == NO_ZONE
      modifies this`owner, inode, vol.Repr(), zmap.words, zmap.dirt
      ensures Storage() && Pending(z) && OnlyZones(old(inode[..]), inode[..], f)
      ensures Grown(old(owner), owner, f, path) && (w == NO_ZONE ==> Room(g, owner) == 1)
      ensures inode[f].zone[top] == w
      ensures DataSame(g, old(vol.store), old(inode[..]), vol.store, inode[..])
      ensures DataKept(g, old(vol.store), vol.store, old(owner), z)
    {
      hide DataSame, DataKept, Grown, Room, MapIs;
      GrownNone(owner, f, path);
      DataSameSelf(g, vol.store, inode[..]);
      DataKeptSame(g, vol.store, owner, z);
      w := AllocIndirect(inode[f].zone[0], z);
      if w == NO_ZONE {
        return;
      }
      GrownOne(owner, f, path, if top == SINGLE then Single else Double, w);
      EnterTop(f, top, w, z);
      assert owner.Keys + {z} == old(owner.Keys) + {z} + {w};
    }

    // Record w as entry i of the double indirect block, and zero it.
    method WriteLeaf(dz: int, i: nat, w: int)
      requires vol.Valid() && 0 <= w < 0x10000
      requires 0 <= FirstBlock(g, w) < |vol.store| && 0 <= FirstBlock(g, dz) < |vol.store|
      requires 2 * i + 1 < |vol.store[FirstBlock(g, dz)]|
      modifies vol.Repr()
      ensures vol.Valid() && vol.store == LeafStore(g, old(vol.store), dz, i, w)
    {
      PutIndPatch(vol.store[FirstBlock(g, dz)], i, w);
      vol.WritePart(FirstBlock(g, dz), 2 * i, [w % 256, w / 256], INDIRECT_BLOCK);
      vol.WriteWhole(FirstBlock(g, w), Zeros(g.bs), INDIRECT_BLOCK);
    }

    // Hang the fresh zone w into the double indirect block, as an empty one.
    method EnterLeaf(f: nat, i: nat, w: int, ghost z: int)
      requires Storage() && f < inode.Length && i < g.Inds() && inode[f].zone[DOUBLE] != NO_ZONE
      requires ZoneAt(g, vol.store, inode[f], Leaf(i)) == NO_ZONE
      requires g.first <= w < g.nzones && w !in owner && z !in owner && w != z
      modifies this`owner, vol.Repr()
      ensures Storage() && owner == old(owner)[w := Owner(f, Leaf(i))]
      ensures ZoneAt(g, vol.store, inode[f], Leaf(i)) == w
      ensures DataSame(g, old(vol.store), inode[..], vol.store, inode[..])
      ensures DataKept(g, old(vol.store), vol.store, old(owner), z)
    {
      var dz := inode[f].zone[DOUBLE];
      assert dz == ZoneAt(g, vol.store, inode[..][f], Double);
      LeafHung(g, vol.store, inode[..], owner, f, i, w);
      AttachedAll(g, vol.store, inode[..], LeafStore(g, vol.store, dz, i, w), inode[..], owner, f, Leaf(i), w);
      LeafKeepsData(g, vol.store, owner, dz, i, w, z);
      WriteLeaf(dz, i, w);
      owner := owner[w := Owner(f, Leaf(i))];
    }

    // A fresh single indirect zone, hung into the double indirect block.
    method HangLeaf(f: nat, i: nat, ghost z: int, ghost path: seq<Slot>) returns (w: int)
      requires Storage() && Pending(z) && f < inode.Length && i < g.Inds() && inode[f].zone[DOUBLE] != NO_ZONE
      requires ZoneAt(g, vol.store, inode[f], Leaf(i)) == NO_ZONE && Leaf(i) in path
      modifies this`owner, vol.Repr(), zmap.words, zmap.dirt
      ensures Storage() && Pending(z)
      ensures Grown(old(owner), owner, f, path) && (w == NO_ZONE ==> Room(g, owner) == 1)
      ensures ZoneAt(g, vol.store, inode[f], Leaf(i)) == w
      ensures DataSame(g, old(vol.store), inode[..], vol.store, inode[..])
      ensures DataKept(g, old(vol.store), vol.store, old(owner), z)
    {
      hide DataSame, DataKept, Grown, Room, MapIs;
      GrownNone(owner, f, path);
      DataSameSelf(g, vol.store, inode[..]);
      DataKeptSame(g, vol.store, owner, z);
      w := AllocIndirect(inode[f].zone[0], z);
      if w == NO_ZONE {
        return;
      }
      GrownOne(owner, f, path, Leaf(i), w);
      EnterLeaf(f, i, w, z);
      assert owner.Keys + {z} == old(owner.Keys) + {z} + {w};
    }

    // Zone z becomes relative zone zi, through the indirect zone w.
    method PutEntry(f: nat, zi: nat, w: int, z: int)
      requires Storage() && Pending(z) && f < inode.Length && NR_DZONE_NUM <= zi < g.MaxZones()
      requires w == ZoneAt(g, vol.store, inode[f], HolderSlot(g, zi)) && w != NO_ZONE
      requires ZoneOf(g, vol.store, inode[f], zi) == NO_ZONE
      modifies this`owner, vol.Repr()
      ensures Storage() && MapIs(owner.Keys) && owner == old(owner)[z := Owner(f, Data(zi))]
      ensures DataAttached(g, old(vol.store), inode[..], vol.store, inode[..], f, zi, z)
      ensures DataKept(g, old(vol.store), vol.store, old(owner), z)
    {
      hide MapIs, DataAttached, DataKept, InodesOk, StoreOk, Owned, ZoneOf, ZoneAt, HolderSlot, HolderIndex, PutInd;
      ghost var store := vol.store;
      var b, i := FirstBlock(g, w), HolderIndex(g, zi);
      EntryStored(g, store, inode[..], owner, f, zi, w, z);
      PutIndPatch(store[b], i, z);
      vol.WritePart(b, 2 * i, [z % 256, z / 256], INDIRECT_BLOCK);
      owner := owner[z := Owner(f, Data(zi))];
      assert owner.Keys == old(owner.Keys) + {z};
    }

    // The indirect zone for a relative zone, made if need be and if the zones
    // for that can be had besides z.
    method NeedHolder(f: nat, zone: nat, ghost z: int, ghost path: seq<Slot>) returns (w: int)
      requires Storage() && Pending(z) && f < inode.Length && NR_DZONE_NUM <= zone < g.MaxZones()
      requires Covers(g, zone, path)
      modifies this`owner, inode, vol.Repr(), zmap.words, zmap.dirt
      ensures Storage() && Pending(z) && OnlyZones(old(inode[..]), inode[..], f)
      ensures Grown(old(owner), owner, f, path) && (w == NO_ZONE ==> Room(g, owner) == 1)
      ensures w == ZoneAt(g, vol.store, inode[f], HolderSlot(g, zone))
      ensures DataSame(g, old(vol.store), old(inode[..]), vol.store, inode[..])
      ensures DataKept(g, old(vol.store), vol.store, old(owner), z)
    {
      hide Grown, Room, DataKept;
      GrownNone(owner, f, path);
      DataKeptSame(g, vol.store, owner, z);
      var excess := zone - NR_DZONE_NUM;
      if excess < g.Inds() {
        w := inode[f].zone[SINGLE];
        if w == NO_ZONE {
          w := HangTop(f, SINGLE, z, path);
        }
        return;
      }
      DoubleIndex(g, zone);
      ghost var store0, owner0 := vol.store, owner;
      var d := inode[f].zone[DOUBLE];
      if d == NO_ZONE {
        d := HangTop(f, DOUBLE, z, path);
        if d == NO_ZONE {
          return d;
        }
      }
      ghost var store1, owner1 := vol.store, owner;
      w := NeedLeaf(f, (excess - g.Inds()) / g.Inds(), z, path);
      GrownTrans(owner0, owner1, owner, f, path);
      DataKeptTrans(g, store0, store1, vol.store, owner0, owner1, f, path, z);
    }

    method NeedLeaf(f: nat, i: nat, ghost z: int, ghost path: seq<Slot>) returns (w: int)
      requires Storage() && Pending(z) && f < inode.Length && i < g.Inds() && inode[f].zone[DOUBLE] != NO_ZONE
      requires Leaf(i) in path
      modifies this`owner, vol.Repr(), zmap.words, zmap.dirt
      ensures Storage() && Pending(z)
      ensures Grown(old(owner), owner, f, path) && (w == NO_ZONE ==> Room(g, owner) == 1)
      ensures w == ZoneAt(g, vol.store, inode[f], Leaf(i))
      ensures DataSame(g, old(vol.store), inode[..], vol.store, inode[..])
      ensures DataKept(g, old(vol.store), vol.store, old(owner), z)
    {
      assert ZoneAt(g, vol.store, inode[..][f], Double) == inode[f].zone[DOUBLE];
      w := ReadEntry(inode[f].zone[DOUBLE], i);
      if w == NO_ZONE {
        w := HangLeaf(f, i, z, path);
      }
    }

    // write_map(): zone z becomes part of file f.  It fails when z is the last
    // free zone and an indirect zone is missing; what it made on the way stays.
    method WriteMap(f: nat, position: nat, z: int, ghost path: seq<Slot>) returns (r: Reply)
      requires Storage() && Pending(z) && f < inode.Length && Reach(g, position) && Covers(g, ZoneNr(g, position), path)
      requires ZoneOf(g, vol.store, inode[f], ZoneNr(g, position)) == NO_ZONE
      modifies this`owner, inode, vol.Repr(), zmap.words, zmap.dirt
      ensures Storage() && OnlyZones(old(inode[..]), inode[..], f)
      ensures r == OK || r == ENOSPC
      ensures Grown(old(owner), owner, f, path)
      ensures DataKept(g, old(vol.store), vol.store, old(owner), z)
      ensures r == OK ==>
        && z in owner && MapIs(owner.Keys)
        && DataAttached(g, old(vol.store), old(inode[..]), vol.store, inode[..], f, ZoneNr(g, position), z)
      ensures r == ENOSPC ==>
        && Pending(z) && Room(g, owner) == 1 && ZoneNr(g, position) >= NR_DZONE_NUM
        && ZoneAt(g, vol.store, inode[f], HolderSlot(g, ZoneNr(g, position))) == NO_ZONE
        && DataSame(g, old(vol.store), old(inode[..]), vol.store, inode[..])
    {
      var zone := ZoneNr(g, position);
      if zone < NR_DZONE_NUM {
        GrownOne(owner, f, path, Data(zone), z);
        EnterDirect(f, zone, z);
        return OK;
      }
      r := WriteIndirect(f, zone, z, path);
    }

    method WriteIndirect(f: nat, zone: nat, z: int, ghost path: seq<Slot>) returns (r: Reply)
      requires Storage() && Pending(z) && f < inode.Length && NR_DZONE_NUM <= zone < g.MaxZones()
      requires Covers(g, zone, path)
      requires ZoneOf(g, vol.store, inode[f], zone) == NO_ZONE
      modifies this`owner, inode, vol.Repr(), zmap.words, zmap.dirt
      ensures Storage() && OnlyZones(old(inode[..]), inode[..], f)
      ensures r == OK || r == ENOSPC
      ensures Grown(old(owner), owner, f, path)
      ensures DataKept(g, old(vol.store), vol.store, old(owner), z)
      ensures r == OK ==>
        && z in owner && MapIs(owner.Keys)
        && DataAttached(g, old(vol.store), old(inode[..]), vol.store, inode[..], f, zone, z)
      ensures r == ENOSPC ==>
        && Pending(z) && Room(g, owner) == 1
        && ZoneAt(g, vol.store, inode[f], HolderSlot(g, zone)) == NO_ZONE
        && DataSame(g, old(vol.store), old(inode[..]), vol.store, inode[..])
    {
      ghost var store0, owner0 := vol.store, owner;
      var w := NeedHolder(f, zone, z, path);
      if w == NO_ZONE {
        return ENOSPC;
      }
      ghost var store1, owner1 := vol.store, owner;
      GrownOne(owner1, f, path, Data(zone), z);
      PutEntry(f, zone, w, z);
      GrownTrans(owner0, owner1, owner, f, path);
      DataKeptTrans(g, store0, store1, vol.store, owner0, owner1, f, path, z);
      return OK;
    }

    method EnterDirect(f: nat, zone: nat, z: int)
      requires Storage() && Pending(z) && f < inode.Length && zone < NR_DZONE_NUM
      requires inode[f].zone[zone] == NO_ZONE
      modifies this`owner, inode
      ensures Storage() && OnlyZones(old(inode[..]), inode[..], f)
      ensures MapIs(owner.Keys) && owner == old(owner)[z := Owner(f, Data(zone))]
      ensures DataAttached(g, vol.store, old(inode[..]), vol.store, inode[..], f, zone, z)
    {
      ghost var inodes := inode[..];
      AttachDirect(g, vol.store, inodes, f, zone, z);
      inode[f] := inode[f].(zone := inode[f].zone[zone := z]);
      assert inode[..] == inodes[f := inode[f]];
      assert ZoneAt(g, vol.store, inodes[f], Data(zone)) == NO_ZONE;
      AttachedAll(g, vol.store, inodes, vol.store, inode[..], owner, f, Data(zone), z);
      owner := owner[z := Owner(f, Data(zone))];
      assert owner.Keys == old(owner.Keys) + {z};
    }

    // ---------------------------------------------------------------------
    // Data blocks

    // clear_zone(): zero the zone of a position, from its beginning or from
    // the first block that begins at or after the position.
    method ClearZone(f: nat, pos: nat, whole: bool)
      requires Storage() && f < inode.Length && Reach(g, pos)
      modifies vol.Repr()
      ensures Storage()
      ensures Cleared(g, old(vol.store), vol.store, inode[..], f, ClearLo(g, pos, whole),
        ClearHi(g, old(vol.store), inode[f], pos, whole))
    {
      ghost var lo := ClearLo(g, pos, whole);
      NothingCleared(g, vol.store, inode[..], f, lo);
      ClearIndices(g, pos, whole);
      ghost var hi := ClearHi(g, vol.store, inode[f], pos, whole);
      if g.spz == 1 {
        return;
      }
      var zoneSize := g.bs * g.spz;
      var p := if whole then pos / zoneSize * zoneSize else pos;
      var next := p + g.bs - 1;
      if next / zoneSize != p / zoneSize {
        return;
      }
      assert InReach(g, lo);
      BlockInStore(g, vol.store, inode[..], owner, f, lo);
      var blo := ReadMap(f, next);
      if blo != NO_BLOCK {
        ZeroBlocks(f, blo, lo, hi);
      }
    }

    // Zero the blocks from blo, which is block lo of the file, to the end of
    // its zone.
    method ZeroBlocks(f: nat, blo: int, ghost lo: nat, ghost hi: nat)
      requires Storage() && f < inode.Length && InReach(g, lo)
      requires blo == BlockAt(g, vol.store, inode[f], lo) && blo != NO_BLOCK && hi == (lo / g.spz + 1) * g.spz
      modifies vol.Repr()
      ensures Storage() && Cleared(g, old(vol.store), vol.store, inode[..], f, lo, hi)
    {
      BlockInStore(g, vol.store, inode[..], owner, f, lo);
      ZoneTop(g, vol.store, inode[f], lo);
      var bhi := (blo / g.spz + 1) * g.spz - 1;
      var b := blo;
      ghost var bi := lo;
      NothingCleared(g, vol.store, inode[..], f, lo);
      while b <= bhi
        invariant Storage()
        invariant lo <= bi <= hi && b - blo == bi - lo
        invariant Cleared(g, old(vol.store), vol.store, inode[..], f, lo, bi)
      {
        ZeroOne(f, b, old(vol.store), lo, bi);
        b := b + 1;
        bi := bi + 1;
      }
      assert bi == hi;
    }

    // Zero block bi of the file, which is block b.
    method ZeroOne(f: nat, b: int, ghost store0: Store, ghost lo: nat, ghost bi: nat)
      requires Storage() && f < inode.Length && InReach(g, lo) && lo <= bi < (lo / g.spz + 1) * g.spz
      requires ZoneOf(g, store0, inode[f], lo / g.spz) != NO_ZONE
      requires b == BlockAt(g, store0, inode[f], lo) + (bi - lo)
      requires Cleared(g, store0, vol.store, inode[..], f, lo, bi)
      modifies vol.Repr()
      ensures Storage() && Cleared(g, store0, vol.store, inode[..], f, lo, bi + 1)
    {
      ClearNext(g, store0, vol.store, inode[..], owner, f, lo, bi);
      vol.WriteWhole(b, Zeros(g.bs), FULL_DATA_BLOCK);
    }

    // new_block(), up to the zeroing of the block: a zone for a position that
    // has none, if there is room for it and the indirect zones it needs.
    method NewBlock(f: nat, position: nat) returns (b: int)
      requires Storage() && MapIs(owner.Keys) && f < inode.Length && Reach(g, position)
      requires ZoneOf(g, vol.store, inode[f], ZoneNr(g, position)) == NO_ZONE
      modifies this`owner, inode, vol.Repr(), zmap.words, zmap.dirt
      ensures Storage() && MapIs(owner.Keys) && OnlyZones(old(inode[..]), inode[..], f) && Extends(old(owner))
      ensures b != NO_BLOCK <==> HasRoom(g, old(owner), f, Path(g, ZoneNr(g, position)))
      ensures b == NO_BLOCK ==>
        && Took(g, old(owner), owner, f, Leftover(g, old(owner), f, Path(g, ZoneNr(g, position))))
        && DataSame(g, old(vol.store), old(inode[..]), vol.store, inode[..])
        && BlocksKept(g, old(vol.store), old(inode[..]), vol.store, inode[..], -1, 0)
      ensures b != NO_BLOCK ==>
        var z := NextZone(g, old(owner).Keys, ZoneHint(g, old(inode[f])));
        && ZoneOf(g, vol.store, inode[f], ZoneNr(g, position)) == z != NO_ZONE
        && b == BlockAt(g, vol.store, inode[f], BlockNr(g, position))
        && Took(g, old(owner), owner, f, Path(g, ZoneNr(g, position)))
        && NewZone(g, old(vol.store), old(inode[..]), vol.store, inode[..], f, ZoneNr(g, position), z,
                   position != inode[f].size, BlockNr(g, position))
    {
      hide MapIs, HasRoom, Took, NextZone, Leftover, DataSame, BlocksKept, NewZone, Cleared, Extends, Owned, InodesOk,
        StoreOk;
      var z := GetZone(f, position);
      if z == NO_ZONE {
        return NO_BLOCK;
      }
      ghost var store1 := vol.store;
      if position != inode[f].size {
        ClearZone(f, position, true);
        ZoneCleared(g, old(vol.store), old(inode[..]), store1, vol.store, inode[..], f, position, z);
      }
      b := BlockIn(f, position, z);
    }

    // A fresh zone for the position, mapped, if there is room.
    method GetZone(f: nat, position: nat) returns (z: int)
      requires Storage() && MapIs(owner.Keys) && f < inode.Length && Reach(g, position)
      requires ZoneOf(g, vol.store, inode[f], ZoneNr(g, position)) == NO_ZONE
      modifies this`owner, inode, vol.Repr(), zmap.words, zmap.dirt
      ensures Storage() && MapIs(owner.Keys) && OnlyZones(old(inode[..]), inode[..], f) && Extends(old(owner))
      ensures ZoneOf(g, vol.store, inode[f], ZoneNr(g, position)) == z
      ensures z != NO_ZONE <==> HasRoom(g, old(owner), f, Path(g, ZoneNr(g, position)))
      ensures z == NO_ZONE ==>
        && Took(g, old(owner), owner, f, Leftover(g, old(owner), f, Path(g, ZoneNr(g, position))))
        && DataSame(g, old(vol.store), old(inode[..]), vol.store, inode[..])
        && BlocksKept(g, old(vol.store), old(inode[..]), vol.store, inode[..], -1, 0)
      ensures z != NO_ZONE ==>
        && z == NextZone(g, old(owner).Keys, ZoneHint(g, old(inode[f])))
        && Took(g, old(owner), owner, f, Path(g, ZoneNr(g, position)))
        && NewZone(g, old(vol.store), old(inode[..]), vol.store, inode[..], f, ZoneNr(g, position), z, false,
          BlockNr(g, position))
    {
      ghost var owner0, path := owner, Path(g, ZoneNr(g, position));
      PathCovers(g, ZoneNr(g, position));
      z := TakeZone(f, position, path);
      TakeJudged(g, vol.store, inode[..], owner0, owner, f, ZoneNr(g, position));
    }

    // The same, given back when it cannot be mapped.
    method TakeZone(f: nat, position: nat, ghost path: seq<Slot>) returns (z: int)
      requires Storage() && MapIs(owner.Keys) && f < inode.Length && Reach(g, position)
      requires Covers(g, ZoneNr(g, position), path)
      requires ZoneOf(g, vol.store, inode[f], ZoneNr(g, position)) == NO_ZONE
      modifies this`owner, inode, vol.Repr(), zmap.words, zmap.dirt
      ensures Storage() && MapIs(owner.Keys) && OnlyZones(old(inode[..]), inode[..], f)
      ensures Grown(old(owner), owner, f, path)
      ensures ZoneOf(g, vol.store, inode[f], ZoneNr(g, position)) == z
      ensures z == NO_ZONE ==>
        && Stuck(g, vol.store, inode[..], old(owner), owner, f, ZoneNr(g, position))
        && DataSame(g, old(vol.store), old(inode[..]), vol.store, inode[..])
        && BlocksKept(g, old(vol.store), old(inode[..]), vol.store, inode[..], -1, 0)
      ensures z != NO_ZONE ==>
        && z == NextZone(g, old(owner).Keys, ZoneHint(g, old(inode[f])))
        && NewZone(g, old(vol.store), old(inode[..]), vol.store, inode[..], f, ZoneNr(g, position), z, false,
          BlockNr(g, position))
    {
      hide Grown, Room, DataKept, BlocksKept, NewZone, MapIs;
      GrownNone(owner, f, path);
      z := AllocZone(if inode[f].size == 0 then g.first else inode[f].zone[0], owner.Keys);
      if z == NO_ZONE {
        RoomLeft(g, owner);
        DataKeptSame(g, vol.store, owner, NO_ZONE);
        MapKeepsBlocks(g, vol.store, inode[..], owner, vol.store, inode[..], -1, 0, NO_ZONE);
        return;
      }
      var r := EnterZone(f, position, z, path);
      if r != OK {
        z := NO_ZONE;
      }
    }

    // The block of a position, in its zone z.
    method BlockIn(f: nat, position: nat, z: int) returns (b: int)
      requires Storage() && f < inode.Length && Reach(g, position) && z != NO_ZONE
      requires ZoneOf(g, vol.store, inode[f], ZoneNr(g, position)) == z
      ensures b == BlockAt(g, vol.store, inode[f], BlockNr(g, position)) && b != NO_BLOCK
    {
      var zoneSize := g.bs * g.spz;
      DivDiv(position, g.bs, g.spz);
      b := FirstBlock(g, z) + position % zoneSize / g.bs;
      BlockInStore(g, vol.store, inode[..], owner, f, BlockNr(g, position));
    }

    // Map the fresh zone z, or give it back.
    method EnterZone(f: nat, position: nat, z: int, ghost path: seq<Slot>) returns (r: Reply)
      requires Storage() && Pending(z) && f < inode.Length && Reach(g, position) && Covers(g, ZoneNr(g, position), path)
      requires ZoneOf(g, vol.store, inode[f], ZoneNr(g, position)) == NO_ZONE
      modifies this`owner, inode, vol.Repr(), zmap.words, zmap.dirt
      ensures Storage() && MapIs(owner.Keys) && OnlyZones(old(inode[..]), inode[..], f)
      ensures Grown(old(owner), owner, f, path)
      ensures r == OK ==>
        && ZoneOf(g, vol.store, inode[f], ZoneNr(g, position)) == z
        && NewZone(g, old(vol.store), old(inode[..]), vol.store, inode[..], f, ZoneNr(g, position), z, false,
          BlockNr(g, position))
      ensures r != OK ==>
        && ZoneOf(g, vol.store, inode[f], ZoneNr(g, position)) == NO_ZONE
        && Stuck(g, vol.store, inode[..], old(owner), owner, f, ZoneNr(g, position))
        && DataSame(g, old(vol.store), old(inode[..]), vol.store, inode[..])
        && BlocksKept(g, old(vol.store), old(inode[..]), vol.store, inode[..], -1, 0)
    {
      hide Grown, Room, DataKept, DataSame, BlocksKept, NewZone;
      ghost var store, inodes, owner0 := vol.store, inode[..], owner;
      r := WriteMap(f, position, z, path);
      if r == OK {
        ZoneEntered(g, store, inodes, owner0, vol.store, inode[..], owner, f, ZoneNr(g, position), z,
          BlockNr(g, position));
      } else {
        MapKeepsBlocks(g, store, inodes, owner0, vol.store, inode[..], -1, 0, z);
        var freed := FreeZone(z, owner.Keys + {z});
        assert owner.Keys + {z} - {z} == owner.Keys;
        assert ZoneOf(g, vol.store, inode[..][f], ZoneNr(g, position)) ==
          ZoneOf(g, store, inodes[f], ZoneNr(g, position));
      }
    }

    // rw_chunk(), writing: part of one block, if it has a zone or there is room
    // for one.
    method WriteChunk(f: nat, position: nat, off: nat, data: seq<int>, ghost b: Image, ghost path: seq<Slot>)
      returns (r: Reply, ghost c: Image)
      requires Storage() && MapIs(owner.Keys) && f < inode.Length && ChunkFits(g, position, data)
      requires off == position % g.bs
      requires Is(b) && path == Path(g, ZoneNr(g, position)) && forall i :: 0 <= i < |data| ==> 0 <= data[i] < 256
      modifies this`owner, inode, vol.Repr(), zmap.words, zmap.dirt
      ensures Storage() && MapIs(owner.Keys) && Extends(old(owner)) && (r == OK || r == ENOSPC)
      ensures Is(c) && ChunkDid(g, b, c, f, position, data, path, r == OK)
    {
      hide ChunkWritten, HasRoom, Took, Leftover, DataSame, BlocksKept, MapIs;
      BlockInStore(g, vol.store, inode[..], owner, f, BlockNr(g, position));
      var b0 := ReadMap(f, position);
      var how := if off + |data| == g.bs then FULL_DATA_BLOCK else PARTIAL_DATA_BLOCK;
      if b0 == NO_BLOCK {
        r := WriteNew(f, position, off, data, how);
      } else {
        WriteOld(f, position, off, data, b0, how);
        r := OK;
        OldJudged(g, b, f, ZoneNr(g, position));
      }
      c := Image(vol.store, inode[..], owner);
      RoomLeft(g, owner);
    }

    // A chunk of a zone that is not there yet.
    method WriteNew(f: nat, position: nat, off: nat, data: seq<int>, how: Release) returns (r: Reply)
      requires Storage() && MapIs(owner.Keys) && f < inode.Length && ChunkFits(g, position, data)
      requires off == position % g.bs
      requires forall i :: 0 <= i < |data| ==> 0 <= data[i] < 256
      requires BlockAt(g, vol.store, inode[f], BlockNr(g, position)) == NO_BLOCK && !how.zuper
      requires |FileBlock(g, vol.store, inode[f], BlockNr(g, position))| == g.bs
      modifies this`owner, inode, vol.Repr(), zmap.words, zmap.dirt
      ensures Storage() && MapIs(owner.Keys) && Extends(old(owner)) && (r == OK || r == ENOSPC)
      ensures OthersKept(g, old(vol.store), old(inode[..]), vol.store, inode[..], f)
      ensures r == OK <==> HasRoom(g, old(owner), f, Path(g, ZoneNr(g, position)))
      ensures r == OK ==>
        && ChunkWritten(g, old(vol.store), old(inode[f]), vol.store, inode[f], position, data)
        && Took(g, old(owner), owner, f, Path(g, ZoneNr(g, position)))
        && FirstZone(g, old(owner), old(vol.store), old(inode[f]), vol.store, inode[f], position)
      ensures r == ENOSPC ==>
        && Took(g, old(owner), owner, f, Leftover(g, old(owner), f, Path(g, ZoneNr(g, position))))
        && inode[f].size == old(inode[f].size)
        && DataSame(g, old(vol.store), old(inode[..]), vol.store, inode[..])
        && BlocksKept(g, old(vol.store), old(inode[..]), vol.store, inode[..], -1, 0)
    {
      ghost var store, inodes := vol.store, inode[..];
      BlockInStore(g, store, inodes, owner, f, BlockNr(g, position));
      var b := NewBlock(f, position);
      if b == NO_BLOCK {
        NoneWritten(g, store, inodes, vol.store, inode[..], f);
        return ENOSPC;
      }
      ghost var z := ZoneOf(g, vol.store, inode[f], ZoneNr(g, position));
      ChunkInNew(g, store, inodes, vol.store, inode[..], owner, f, position, data, z);
      vol.WriteWhole(b, Patch(Zeros(g.bs), off, data), how);
      return OK;
    }

    // A chunk of block b.  A block that is overwritten, or lies past the end,
    // need not be read.
    method WriteOld(f: nat, position: nat, off: nat, data: seq<int>, b: int, how: Release)
      requires Storage() && f < inode.Length && ChunkFits(g, position, data) && off == position % g.bs
      requires forall i :: 0 <= i < |data| ==> 0 <= data[i] < 256
      requires b == BlockAt(g, vol.store, inode[f], BlockNr(g, position)) && b != NO_BLOCK && !how.zuper
      requires |FileBlock(g, vol.store, inode[f], BlockNr(g, position))| == g.bs
      modifies vol.Repr()
      ensures Storage()
      ensures OthersKept(g, old(vol.store), inode[..], vol.store, inode[..], f)
      ensures ChunkWritten(g, old(vol.store), inode[f], vol.store, inode[f], position, data)
    {
      ChunkInPlace(g, vol.store, inode[..], owner, f, position, data);
      if |data| == g.bs {
        assert data == Patch(vol.store[b], 0, data) == Patch(Zeros(g.bs), 0, data);
        vol.WriteWhole(b, data, how);
      } else if off == 0 && position >= inode[f].size {
        vol.WriteWhole(b, Patch(Zeros(g.bs), off, data), how);
      } else {
        vol.WritePart(b, off, data, how);
      }
    }

    // ---------------------------------------------------------------------
    // read_write()

    // Between system calls: the bit map names exactly the zones in use, and
    // every file is proper.
    ghost predicate Valid()
      reads this, inode, vol.Repr(), zmap, zmap.words
    {
      && Storage() && MapIs(owner.Keys) && maxSize <= g.MaxZones() * g.ZoneBytes()
      && forall f :: 0 <= f < inode.Length ==> FileOk(g, vol.store, inode[f], maxSize)
    }

    // No file ends in a zone that is not there.
    ghost predicate AllAnchored()
      requires g.Valid() && InodesOk(inode[..])
      reads this, inode, vol
    {
      AllOnZones(g, vol.store, inode[..])
    }

    // The state as a write sees it.
    ghost predicate Is(b: Image)
      reads this, inode, vol
    {
      b.store == vol.store && b.inodes == inode[..] && b.owner == owner
    }

    // The rest of the bytes, a block at a time, until there is no room.
    method WriteChunks(f: nat, position: nat, data: seq<int>, ghost a: Image, ghost b0: Image, ghost way: Ways)
      returns (r: Reply, k: nat, ghost b: Image, ghost taken: seq<Slot>, ghost next: seq<Slot>)
      requires Storage() && MapIs(owner.Keys) && f < inode.Length && WaysAre(g, way, maxSize)
      requires maxSize <= g.MaxZones() * g.ZoneBytes()
      requires position + |data| <= maxSize && data != [] && forall i :: 0 <= i < |data| ==> 0 <= data[i] < 256
      requires Is(b0) && Going(g, maxSize, a, b0, f, position, data, 0, [])
      modifies this`owner, inode, vol.Repr(), zmap.words, zmap.dirt
      ensures Storage() && MapIs(owner.Keys) && Extends(old(owner))
      ensures k <= |data| && (r == OK || r == ENOSPC) && (r == OK <==> k == |data|)
      ensures Is(b) && Stopped(g, maxSize, a, b, f, position, data, k, taken, next)
      ensures Tally(g, way, a.owner, f, position, k, taken) && (k < |data| ==> next == way[position + k])
    {
      hide Tally, Going, Stopped, MapIs, InodesOk, StoreOk, Owned, Is;
      r := OK;
      k := 0;
      b, taken, next := b0, [], [];
      ReachBelow(g, maxSize);
      TallyNone(g, way, a.owner, f, position);
      while k < |data|
        invariant k <= |data| && r == OK && Storage() && MapIs(owner.Keys) && Extends(old(owner))
        invariant Is(b) && Going(g, maxSize, a, b, f, position, data, k, taken)
        invariant Tally(g, way, a.owner, f, position, k, taken)
      {
        var off := (position + k) % g.bs;
        var chunk := if |data| - k < g.bs - off then |data| - k else g.bs - off;
        var part := data[k..k + chunk];
        assert Reach(g, position + k);
        SameWay(g, way, position + k, |part|);
        next := way[position + k];
        r, b := OneChunk(f, position, data, k, off, part, a, b, taken, next);
        if r != OK {
          return;
        }
        TallyNext(g, way, a.owner, f, position, k, |part|, taken);
        taken := taken + next;
        k := k + |part|;
      }
      next := [];
      GoingEnds(g, maxSize, a, b, f, position, data, taken);
    }

    method OneChunk(f: nat, position: nat, data: seq<int>, k: nat, off: nat, part: seq<int>,
                    ghost a: Image, ghost b: Image, ghost taken: seq<Slot>, ghost path: seq<Slot>)
      returns (r: Reply, ghost c: Image)
      requires Storage() && MapIs(owner.Keys) && f < inode.Length && path == Path(g, ZoneNr(g, position + k))
      requires maxSize <= g.MaxZones() * g.ZoneBytes()
      requires position < maxSize && k + |part| <= |data| && part == data[k..k + |part|]
      requires ChunkFits(g, position + k, part) && forall i :: 0 <= i < |part| ==> 0 <= part[i] < 256
      requires off == (position + k) % g.bs && (k + |part| < |data| ==> off + |part| == g.bs)
      requires Is(b) && Going(g, maxSize, a, b, f, position, data, k, taken)
      modifies this`owner, inode, vol.Repr(), zmap.words, zmap.dirt
      ensures Storage() && MapIs(owner.Keys) && Extends(old(owner)) && (r == OK || r == ENOSPC)
      ensures Is(c)
      ensures r == OK ==> Going(g, maxSize, a, c, f, position, data, k + |part|, taken + path)
      ensures r == ENOSPC ==> Stopped(g, maxSize, a, c, f, position, data, k, taken, path)
    {
      hide Going, Stopped, ChunkDid, MapIs, Owned, StoreOk;
      r, c := WriteChunk(f, position + k, off, part, b, path);
      if r == OK {
        GoingOn(g, maxSize, a, b, c, f, position, data, k, part, taken, path);
      } else {
        GoingStops(g, maxSize, a, b, c, f, position, data, k, part, taken, path);
      }
    }

    // A write at the position will spoil the file.
    ghost predicate Spoils(f: nat, position: nat)
      requires g.Valid() && InodesOk(inode[..]) && f < inode.Length && position < maxSize
      reads this, inode, vol
    {
      SpoiledBy(g, maxSize, Image(vol.store, inode[..], owner), f, position)
    }

    // read_write(WRITING): the reply and the new file position.  As much is
    // written as there is room for; the file size is set even when that is
    // nothing; the other files do not change.
    method Write(f: nat, position: nat, data: seq<int>) returns (r: Reply, newPosition: nat)
      requires Valid() && f < inode.Length && forall i :: 0 <= i < |data| ==> 0 <= data[i] < 256
      modifies this`owner, inode, vol.Repr(), zmap.words, zmap.dirt
      ensures Valid() && Extends(old(owner))
      ensures r == EFBIG <==> data != [] && position + |data| > maxSize
      ensures data == [] || r == EFBIG ==>
        vol.store == old(vol.store) && inode[..] == old(inode[..]) && newPosition == position
      ensures position <= newPosition <= position + |data| && (r == OK <==> newPosition == position + |data|)
      ensures data != [] && r != EFBIG ==>
        Wrote(g, old(vol.store), old(inode[f]), vol.store, inode[f], position, data, newPosition - position)
      ensures data != [] && r != EFBIG ==>
        Reached(g, WaysOf(g, maxSize), old(owner), f, position, |data|, newPosition - position)
      ensures data != [] && r != EFBIG ==>
        (Contents(g, vol.store, inode[f]) ==
           Spliced(old(Contents(g, vol.store, inode[f])), position, data[..newPosition - position])
         <==> !old(Spoils(f, position)))
      ensures old(AllAnchored()) && (r == OK || newPosition > position || position <= old(inode[f].size)) ==>
        AllAnchored()
      ensures forall f' :: 0 <= f' < inode.Length && f' != f ==>
        inode[f'] == old(inode[f']) && Contents(g, vol.store, inode[f']) == old(Contents(g, vol.store, inode[f']))
    {
      hide Wrote, Reached, Contents, Spliced, Anchored, MapIs, Owned, StoreOk, FileOk, Fits, GapDirty;
      if data == [] {
        return OK, position;
      }
      if position + |data| > maxSize {
        return EFBIG, position;
      }
      r, newPosition := WriteBytes(f, position, data, Image(vol.store, inode[..], owner));
    }

    // The loop of read_write() with what comes before and after it.
    method WriteBytes(f: nat, position: nat, data: seq<int>, ghost a: Image) returns (r: Reply, newPosition: nat)
      requires Valid() && f < inode.Length && forall i :: 0 <= i < |data| ==> 0 <= data[i] < 256
      requires data != [] && position + |data| <= maxSize && Is(a)
      modifies this`owner, inode, vol.Repr(), zmap.words, zmap.dirt
      ensures Valid() && Extends(old(owner)) && (r == OK || r == ENOSPC)
      ensures position <= newPosition <= position + |data| && (r == OK <==> newPosition == position + |data|)
      ensures WriteDid(g, maxSize, a, vol.store, inode[..], f, position, data, newPosition - position)
    {
      hide Unsized, WriteDid, MapIs, Owned, StoreOk;
      var fSize := inode[f].size;
      assert FileOk(g, vol.store, inode[f], maxSize);
      var k: nat;
      r, k := WriteAll(f, position, data, a);
      newPosition := position + k;
      SetSize(f, if newPosition > fSize then newPosition else fSize, a, position, data, k);
    }

    // Until the size is set.
    method WriteAll(f: nat, position: nat, data: seq<int>, ghost a: Image) returns (r: Reply, k: nat)
      requires Valid() && f < inode.Length && forall i :: 0 <= i < |data| ==> 0 <= data[i] < 256
      requires data != [] && position + |data| <= maxSize && Is(a)
      modifies this`owner, inode, vol.Repr(), zmap.words, zmap.dirt
      ensures Storage() && MapIs(owner.Keys) && Extends(old(owner))
      ensures k <= |data| && (r == OK || r == ENOSPC) && (r == OK <==> k == |data|)
      ensures Unsized(g, maxSize, a, vol.store, inode[..], f, position, data, k)
    {
      hide Tally, Going, HasRoom, Reached, Underway, Ended, OthersKept, FirstZone, MapIs, Owned, FileOk;
      assert forall f' :: 0 <= f' < |a.inodes| ==> FileOk(g, a.store, a.inodes[f'], maxSize);
      ghost var way := WaysOf(g, maxSize);
      ZeroGap(f, position, data);
      ghost var b: Image, taken: seq<Slot>, next: seq<Slot> := Image(vol.store, inode[..], owner), [], [];
      GoingStarts(g, maxSize, a, b, f, position, data);
      r, k, b, taken, next := WriteChunks(f, position, data, a, b, way);
      StoppedReached(g, maxSize, way, a, b, f, position, data, k, taken, next);
    }

    // The zone with the end of the file is cleared when a hole is about to be
    // made after it.
    method ZeroGap(f: nat, position: nat, ghost data: seq<int>)
      requires Valid() && f < inode.Length && position < maxSize
      modifies vol.Repr()
      ensures Storage()
      ensures Underway(g, old(vol.store), inode[f], vol.store, inode[f], position, data, 0, maxSize)
      ensures OthersKept(g, old(vol.store), inode[..], vol.store, inode[..], f)
    {
      ReachBelow(g, maxSize);
      assert Reach(g, position);
      ghost var store := vol.store;
      if position > inode[f].size {
        assert Reach(g, inode[f].size);
        ClearZone(f, inode[f].size, false);
      }
      UnderwayStart(g, store, inode[..], vol.store, f, position, data, maxSize);
    }

    // The last step of a write.
    method SetSize(f: nat, size: nat, ghost a: Image, ghost position: nat, ghost data: seq<int>, ghost k: nat)
      requires Storage() && MapIs(owner.Keys) && maxSize <= g.MaxZones() * g.ZoneBytes() && f < inode.Length
      requires Unsized(g, maxSize, a, vol.store, inode[..], f, position, data, k)
      requires size == Max(a.inodes[f].size, position + k)
      modifies inode
      ensures Valid() && WriteDid(g, maxSize, a, vol.store, inode[..], f, position, data, k)
    {
      hide WriteDid, FileOk, MapIs;
      ghost var inodes := inode[..];
      SizeDone(g, maxSize, a, vol.store, inodes, owner, f, position, data, k);
      inode[f] := inode[f].(size := size);
      assert inode[..] == inodes[f := inodes[f].(size := size)];
      assert forall f' :: 0 <= f' < inode.Length ==> inode[f'] == inode[..][f'];
    }

    // rw_chunk(), reading: part of one block, zeros where there is none.
    method ReadChunk(f: nat, position: nat, off: nat, chunk: nat) returns (d: seq<int>)
      requires Storage() && f < inode.Length && Reach(g, position) && off == position % g.bs && off + chunk <= g.bs
      modifies vol.Repr() - {vol}
      ensures Storage() && |FileBlock(g, vol.store, inode[f], BlockNr(g, position))| == g.bs
      ensures d == FileBlock(g, vol.store, inode[f], BlockNr(g, position))[off..off + chunk]
    {
      BlockInStore(g, vol.store, inode[..], owner, f, BlockNr(g, position));
      var b := ReadMap(f, position);
      var how := if off + chunk == g.bs then FULL_DATA_BLOCK else PARTIAL_DATA_BLOCK;
      var data: Block;
      if b == NO_BLOCK {
        data := vol.ReadHole(g.bs, how);
      } else {
        data := vol.ReadBlock(b, how);
      }
      d := data[off..off + chunk];
    }

    // The bytes of the next block, at most nbytes and not past the end.
    method ReadPart(f: nat, position: nat, nbytes: nat, ghost c: seq<int>) returns (d: seq<int>)
      requires Storage() && f < inode.Length && position < inode[f].size && Reach(g, position) && nbytes > 0
      requires c == Contents(g, vol.store, inode[f])
      modifies vol.Repr() - {vol}
      ensures Storage() && 0 < |d| <= nbytes && position + |d| <= |c| && d == c[position..position + |d|]
    {
      var off := position % g.bs;
      var chunk := if nbytes < g.bs - off then nbytes else g.bs - off;
      var bytesLeft := inode[f].size - position;
      if chunk > bytesLeft {
        chunk := bytesLeft;
      }
      BlockLength(g, vol.store, inode[..], owner, f, position);
      BlockSlice(g, vol.store, inode[f], position, chunk);
      d := ReadChunk(f, position, off, chunk);
      assert |d| == chunk && c[position..position + chunk] == d;
    }

    // The loop of read_write(), reading.
    method ReadParts(f: nat, position: nat, nbytes: nat, ghost c: seq<int>) returns (data: seq<int>)
      requires Storage() && f < inode.Length && c == Contents(g, vol.store, inode[f])
      requires |c| <= maxSize <= g.MaxZones() * g.ZoneBytes()
      modifies vol.Repr() - {vol}
      ensures Storage() && data == Slice(c, position, nbytes)
    {
      hide Slice, Contents;
      data := [];
      SliceNone(c, position);
      ReachBelow(g, maxSize);
      while |data| < nbytes && position + |data| < inode[f].size
        invariant Storage() && |data| <= nbytes && data == Slice(c, position, |data|)
        decreases nbytes - |data|
      {
        var at := position + |data|;
        assert Reach(g, at);
        var d := ReadPart(f, at, nbytes - |data|, c);
        SliceMore(c, position, data, at, d);
        data := data + d;
      }
      SliceDone(c, position, nbytes, data);
    }

    // read_write(READING): exactly the bytes asked for, up to the end of the
    // file.
    method Read(f: nat, position: nat, nbytes: nat) returns (data: seq<int>, newPosition: nat)
      requires Valid() && f < inode.Length
      modifies vol.Repr() - {vol}
      ensures Valid() && newPosition == position + |data|
      ensures data == Slice(Contents(g, vol.store, inode[f]), position, nbytes)
    {
      data := ReadParts(f, position, nbytes, Contents(g, vol.store, inode[f]));
      newPosition := position + |data|;
    }

    // What a write has put into a file is what a read finds there.
    method WriteThenRead(f: nat, position: nat, data: seq<int>) returns (r: Reply, back: seq<int>)
      requires Valid() && f < inode.Length && forall i :: 0 <= i < |data| ==> 0 <= data[i] < 256
      modifies this`owner, inode, vol.Repr(), zmap.words, zmap.dirt
      ensures Valid()
      ensures r == OK ==> back == data
      ensures r == ENOSPC ==>
        && |back| < |data| && back == data[..|back|] && position + |data| <= maxSize
        && Reached(g, WaysOf(g, maxSize), old(owner), f, position, |data|, |back|)
    {
      hide Wrote, Reached, Contents, Spliced, Fits, GapDirty, AllOnZones, MapIs, Owned, StoreOk, FileOk;
      var p, at: nat;
      ghost var store, ino := vol.store, inode[f];
      r, p := Write(f, position, data);
      back := [];
      if data != [] && r != EFBIG {
        WroteBack(g, store, ino, vol.store, inode[f], position, data, p - position);
        back, at := Read(f, position, p - position);
      }
    }

    // ---------------------------------------------------------------------
    // truncate()

    // Free the zone at one place in the tree of f.  It is in use, so the
    // panic in free_bit() is out of reach.
    method FreeSlot(f: nat, z: int, ghost sl: Slot, ghost done: set<Slot>)
      requires Storage() && f < inode.Length && SlotOk(g, sl) && z == ZoneAt(g, vol.store, inode[f], sl)
      requires MapIs(Left(owner, f, done)) && sl !in done
      modifies zmap.words, zmap.dirt
      ensures Storage() && MapIs(Left(owner, f, done + {sl}))
    {
      LeftLess(g, vol.store, inode[..], owner, f, sl, done);
      var r := FreeZone(z, Left(owner, f, done));
      assert r == Freed;
    }

    // The data zone at a position.
    method FreeZoneAt(f: nat, position: nat, ghost zi: nat, ghost done: set<Slot>)
      requires Storage() && f < inode.Length && MapIs(Left(owner, f, done)) && Data(zi) !in done
      requires position == zi * g.ZoneBytes() && Reach(g, position)
      modifies vol.Repr() - {vol}, zmap.words, zmap.dirt
      ensures Storage() && MapIs(Left(owner, f, done + {Data(zi)}))
    {
      DivDiv(position, g.bs, g.spz);
      DivUnique(position, g.bs * g.spz, zi, 0);
      var b := ReadMap(f, position);
      BlockInStore(g, vol.store, inode[..], owner, f, BlockNr(g, position));
      ZoneFirst(g, vol.store, inode[f], zi);
      if b != NO_BLOCK {
        FreeSlot(f, b / g.spz, Data(zi), done);
      } else {
        LeftLess(g, vol.store, inode[..], owner, f, Data(zi), done);
        assert Left(owner, f, done + {Data(zi)}) == Left(owner, f, done);
      }
    }

    // Step through the file a zone at a time.
    method FreeData(f: nat) returns (ghost done: set<Slot>)
      requires Storage() && f < inode.Length && MapIs(owner.Keys)
      requires inode[f].size <= maxSize <= g.MaxZones() * g.ZoneBytes()
      modifies vol.Repr() - {vol}, zmap.words, zmap.dirt
      ensures Storage() && MapIs(Left(owner, f, done))
      ensures forall sl :: sl in done <==> sl.Data? && sl.zi * g.ZoneBytes() < inode[f].size
    {
      hide Left, MapIs, Owned, StoreOk, InodesOk, Reach, Geo.ZoneBytes, FirstData, FirstLeaves;
      ghost var zi: nat := 0;
      var position := 0;
      var zoneSize := g.bs * g.spz;
      NoneFreed(g, owner, f);
      ReachBelow(g, maxSize);
      while position < inode[f].size
        invariant Storage() && MapIs(Left(owner, f, FirstData(zi))) && position == zi * g.ZoneBytes()
        invariant zi > 0 ==> (zi - 1) * g.ZoneBytes() < inode[f].size
        decreases inode[f].size - position
      {
        assert Reach(g, position);
        NextData(zi);
        FreeZoneAt(f, position, zi, FirstData(zi));
        ZoneAfter(g, zi);
        zi := zi + 1;
        position := position + zoneSize;
      }
      done := FirstData(zi);
      DoneData(g, inode[f].size, zi);
    }

    // The single indirect zones under the double one.
    method FreeLeaves(f: nat, ghost done: set<Slot>)
      requires Storage() && f < inode.Length && MapIs(Left(owner, f, done)) && inode[f].zone[DOUBLE] != NO_ZONE
      requires forall sl :: sl in done ==> !sl.Leaf?
      modifies vol.Repr() - {vol}, zmap.words, zmap.dirt
      ensures Storage() && MapIs(Left(owner, f, done + FirstLeaves(g.Inds())))
    {
      hide Left, MapIs, StoreOk, FirstData, FirstLeaves;
      NextLeaf(done, 0);
      var dz := inode[f].zone[DOUBLE];
      assert dz == ZoneAt(g, vol.store, inode[..][f], Double);
      ZoneFits(g, vol.store, dz);
      var block := vol.ReadBlock(FirstBlock(g, dz), INDIRECT_BLOCK);
      var i := 0;
      while i < g.Inds()
        invariant 0 <= i <= g.Inds() && Storage() && MapIs(Left(owner, f, done + FirstLeaves(i)))
      {
        EntryAt(g, vol.store, dz, i);
        NextLeaf(done, i);
        FreeSlot(f, Ind(block, i), Leaf(i), done + FirstLeaves(i));
        i := i + 1;
      }
    }

    // All the zones of a file.
    method FreeTree(f: nat)
      requires Valid() && f < inode.Length
      modifies vol.Repr() - {vol}, zmap.words, zmap.dirt
      ensures Storage() && MapIs(Without(owner, f).Keys)
    {
      hide Left, MapIs, Without, Owned, StoreOk;
      ghost var done := FreeData(f);
      FreeSlot(f, inode[f].zone[SINGLE], Single, done);
      done := done + {Single};
      if inode[f].zone[DOUBLE] != NO_ZONE {
        FreeLeaves(f, done);
        done := done + FirstLeaves(g.Inds());
        FreeSlot(f, inode[f].zone[DOUBLE], Double, done);
        done := done + {Double};
      }
      NoneLeftOver(g, vol.store, inode[..], owner, f, done);
    }

    // Every zone of the file is freed, once, and no other; the file is empty.
    method Truncate(f: nat)
      requires Valid() && f < inode.Length
      modifies this`owner, inode, vol.Repr() - {vol}, zmap.words, zmap.dirt
      ensures Valid()
      ensures inode[..] == old(inode[..])[f := EMPTY] && owner == Without(old(owner), f)
      ensures Contents(g, vol.store, inode[f]) == []
      ensures old(AllAnchored()) ==> AllAnchored()
      ensures forall f' :: 0 <= f' < inode.Length && f' != f ==>
        Contents(g, vol.store, inode[f']) == old(Contents(g, vol.store, inode[f']))
    {
      FreeTree(f);
      ghost var inodes := inode[..];
      Wiped(g, vol.store, inodes, owner, f);
      inode[f] := EMPTY;
      assert inode[..] == inodes[f := EMPTY];
      assert forall f' :: 0 <= f' < inode.Length ==> inode[f'] == inodes[f := EMPTY][f'];
      owner := Without(owner, f);
    }
  }
}
