// Steps on zone trees: what hanging a zone into one changes, what was taken from
// the device for it, and what is left of a tree that is taken apart.

module TreeSteps {
  import opened Basics
  import opened Blocks
  import opened ZoneTree
  import opened FileBlocks
  import opened FileBytes
  import opened FileWrites
  import opened ZoneSpace

  // Only zone numbers in the inode of f differ.
  ghost predicate OnlyZones(inodes: seq<Inode>, inodes': seq<Inode>, f: nat) {
    && |inodes'| == |inodes|
    && (f < |inodes| ==> inodes'[f].size == inodes[f].size)
    && forall f' :: 0 <= f' < |inodes| && f' != f ==> inodes'[f'] == inodes[f']
  }

  // What wipe_inode() leaves.
  const EMPTY := Inode(0, seq(NR_ZONE_NUMS, _ => NO_ZONE))

  lemma NothingOwned(g: Geo, store: Store, files: nat)
    requires g.Valid()
    ensures var inodes := seq(files, _ => EMPTY); InodesOk(inodes) && Owned(g, store, inodes, map[])
  {}

  // Storing an entry is rewriting two bytes of its block.
  lemma PutIndPatch(b: Block, i: nat, z: nat)
    requires 2 * i + 1 < |b|
    ensures PutInd(b, i, z) == Patch(b, 2 * i, [z % 256, z / 256])
  {}

  // The zone the bit map yields when z is set aside.
  lemma NextBesides(g: Geo, store: Store, inodes: seq<Inode>, owner: map<int, Owner>, z: int, hint: int)
    requires g.Valid() && InodesOk(inodes) && Owned(g, store, inodes, owner) && z !in owner && g.first <= z < g.nzones
    ensures var w := NextZone(g, owner.Keys + {z}, hint);
      if w == NO_ZONE then Room(g, owner) == 1 else g.first <= w < g.nzones && w !in owner && w != z
  {
    RoomPending(g, owner, z);
  }

  lemma DataKeptTrans(g: Geo, a: Store, b: Store, c: Store, owner: map<int, Owner>, owner': map<int, Owner>,
                     f: nat, path: seq<Slot>, z: int)
    requires g.Valid() && DataKept(g, a, b, owner, z) && DataKept(g, b, c, owner', z)
    requires Grown(owner, owner', f, path)
    ensures DataKept(g, a, c, owner, z)
  {
    forall w: int, o: nat | o < g.spz && ((w in owner && owner[w].slot.Data?) || w == z)
      ensures ZoneBlock(g, c, w, o) == ZoneBlock(g, a, w, o)
    {
      assert ZoneBlock(g, b, w, o) == ZoneBlock(g, a, w, o);
    }
  }

  // The store with an empty leaf w hung under the double indirect zone dz.
  function LeafStore(g: Geo, store: Store, dz: int, i: nat, w: nat): Store
    requires 0 <= FirstBlock(g, w) < |store| && 0 <= FirstBlock(g, dz) < |store|
    requires 2 * i + 1 < |store[FirstBlock(g, dz)]|
  {
    store[FirstBlock(g, dz) := PutInd(store[FirstBlock(g, dz)], i, w)][FirstBlock(g, w) := Zeros(g.bs)]
  }

  lemma LeafHung(g: Geo, store: Store, inodes: seq<Inode>, owner: map<int, Owner>, f: nat, i: nat, w: int)
    requires g.Valid() && InodesOk(inodes) && StoreOk(g, store) && Owned(g, store, inodes, owner)
    requires f < |inodes| && i < g.Inds() && inodes[f].zone[DOUBLE] != NO_ZONE
    requires ZoneAt(g, store, inodes[f], Leaf(i)) == NO_ZONE
    requires g.first <= w < g.nzones && w !in owner
    ensures var dz := inodes[f].zone[DOUBLE];
      && 0 <= FirstBlock(g, w) < |store| && 0 <= FirstBlock(g, dz) < |store| && 2 * i + 1 < |store[FirstBlock(g, dz)]|
      && Attached(g, store, inodes, LeafStore(g, store, dz, i, w), inodes, f, Leaf(i), w)
  {
    AttachLeaf(g, store, inodes, owner, f, i, w);
  }

  // What follows when one place gets a new zone.
  lemma AttachedAll(g: Geo, store: Store, inodes: seq<Inode>, store': Store, inodes': seq<Inode>,
                    owner: map<int, Owner>, f: nat, sl: Slot, w: int)
    requires g.Valid() && InodesOk(inodes) && InodesOk(inodes') && |inodes'| == |inodes|
    requires Owned(g, store, inodes, owner) && Attached(g, store, inodes, store', inodes', f, sl, w)
    requires f < |inodes| && SlotOk(g, sl) && ZoneAt(g, store, inodes[f], sl) == NO_ZONE
    requires g.first <= w < g.nzones && w !in owner
    ensures Owned(g, store', inodes', owner[w := Owner(f, sl)])
    ensures ZoneAt(g, store', inodes'[f], sl) == w
    ensures sl.Data? ==> DataAttached(g, store, inodes, store', inodes', f, sl.zi, w)
    ensures !sl.Data? ==> DataSame(g, store, inodes, store', inodes')
  {
    AttachOwned(g, store, inodes, store', inodes', owner, f, sl, w);
    AttachedData(g, store, inodes, store', inodes', f, sl, w);
    assert ZoneAt(g, store', inodes'[f], sl) == w;
  }

  lemma LeafKeepsData(g: Geo, store: Store, owner: map<int, Owner>, dz: int, i: nat, w: int, z: int)
    requires g.Valid() && StoreOk(g, store) && i < g.Inds() && g.first <= w < g.nzones && 0 < dz < g.nzones
    requires dz in owner && !owner[dz].slot.Data? && w !in owner && z !in owner && w != z
    ensures 0 <= FirstBlock(g, w) < |store| && 0 <= FirstBlock(g, dz) < |store|
    ensures 2 * i + 1 < |store[FirstBlock(g, dz)]|
    ensures StoreOk(g, LeafStore(g, store, dz, i, w)) && DataKept(g, store, LeafStore(g, store, dz, i, w), owner, z)
  {
    var d := FirstBlock(g, dz);
    EntryAt(g, store, dz, i);
    ZoneFits(g, store, w);
    var store1 := store[d := PutInd(store[d], i, w)];
    PutIndAt(store[d], g.bs, i, w, i);
    ZerosBlock(g.bs);
    DataKeptFrame(g, store, store, owner, z, dz, PutInd(store[d], i, w));
    DataKeptFrame(g, store, store1, owner, z, w, Zeros(g.bs));
  }

  // A data zone entered in the indirect zone w.
  lemma EntryStored(g: Geo, store: Store, inodes: seq<Inode>, owner: map<int, Owner>, f: nat, zi: nat, w: int, z: int)
    requires g.Valid() && StoreOk(g, store) && InodesOk(inodes) && Owned(g, store, inodes, owner)
    requires f < |inodes| && NR_DZONE_NUM <= zi < g.MaxZones() && g.first <= z < g.nzones && z !in owner
    requires w == ZoneAt(g, store, inodes[f], HolderSlot(g, zi)) && w != NO_ZONE
    requires ZoneOf(g, store, inodes[f], zi) == NO_ZONE
    ensures var b, i := FirstBlock(g, w), HolderIndex(g, zi);
            0 <= b < |store| && 2 * i + 1 < |store[b]|
    ensures var b, i := FirstBlock(g, w), HolderIndex(g, zi);
            var store' := store[b := PutInd(store[b], i, z)];
            && StoreOk(g, store') && Owned(g, store', inodes, owner[z := Owner(f, Data(zi))])
            && DataAttached(g, store, inodes, store', inodes, f, zi, z) && DataKept(g, store, store', owner, z)
  {
    hide DataAttached, DataKept;
    var b, i := FirstBlock(g, w), HolderIndex(g, zi);
    AttachEntry(g, store, inodes, owner, f, zi, w, z);
    PutIndAt(store[b], g.bs, i, z, i);
    var store' := store[b := PutInd(store[b], i, z)];
    HolderZone(g, store, inodes[f], zi);
    AttachedAll(g, store, inodes, store', inodes, owner, f, Data(zi), z);
    assert owner[w] == Owner(f, HolderSlot(g, zi));
    DataKeptSame(g, store, owner, z);
    DataKeptFrame(g, store, store, owner, z, w, PutInd(store[b], i, z));
  }

  lemma DataSameSelf(g: Geo, store: Store, inodes: seq<Inode>)
    requires g.Valid() && InodesOk(inodes)
    ensures DataSame(g, store, inodes, store, inodes)
  {}

  lemma DataKeptSame(g: Geo, store: Store, owner: map<int, Owner>, z: int)
    requires g.Valid()
    ensures DataKept(g, store, store, owner, z)
  {}

  // When no file has changed, the others have not.
  lemma NoneWritten(g: Geo, store: Store, inodes: seq<Inode>, store': Store, inodes': seq<Inode>, f: nat)
    requires g.Valid() && InodesOk(inodes) && InodesOk(inodes') && OnlyZones(inodes, inodes', f)
    requires DataSame(g, store, inodes, store', inodes') && BlocksKept(g, store, inodes, store', inodes', -1, 0)
    ensures OthersKept(g, store, inodes, store', inodes', f)
  {}

  // The zones in use but for those at the given places of file f.
  ghost function Left(owner: map<int, Owner>, f: nat, done: set<Slot>): set<int> {
    set z | z in owner && !(owner[z].file == f && owner[z].slot in done)
  }

  ghost function Without(owner: map<int, Owner>, f: nat): map<int, Owner> {
    map z | z in owner && owner[z].file != f :: owner[z]
  }

  // Each place accounts for one zone, in use until then.
  lemma LeftLess(g: Geo, store: Store, inodes: seq<Inode>, owner: map<int, Owner>, f: nat, sl: Slot, done: set<Slot>)
    requires g.Valid() && InodesOk(inodes) && Owned(g, store, inodes, owner) && f < |inodes| && SlotOk(g, sl)
    requires sl !in done
    ensures var z := ZoneAt(g, store, inodes[f], sl);
      && (z != NO_ZONE ==> g.first <= z < g.nzones && z in Left(owner, f, done))
      && Left(owner, f, done + {sl}) == Left(owner, f, done) - {z}
  {
    var z := ZoneAt(g, store, inodes[f], sl);
    forall w | w in owner && owner[w] == Owner(f, sl) ensures w == z {
      assert ZoneAt(g, store, inodes[owner[w].file], owner[w].slot) == w;
    }
  }

  // The first block of relative zone zi.
  lemma ZoneFirst(g: Geo, store: Store, ino: Inode, zi: nat)
    requires g.Valid() && |ino.zone| == NR_ZONE_NUMS && ZoneOf(g, store, ino, zi) >= NO_ZONE
    ensures zi * g.spz / g.spz == zi
    ensures BlockNr(g, zi * g.ZoneBytes()) / g.spz == zi
    ensures var z := ZoneOf(g, store, ino, zi);
      BlockAt(g, store, ino, BlockNr(g, zi * g.ZoneBytes())) == FirstBlock(g, z) && FirstBlock(g, z) / g.spz == z
  {
    DivUnique(zi * g.spz, g.spz, zi, 0);
    var p := zi * g.ZoneBytes();
    MulLe(0, zi, g.ZoneBytes());
    DivDiv(p, g.bs, g.spz);
    DivUnique(p, g.ZoneBytes(), zi, 0);
    var z := ZoneOf(g, store, ino, zi);
    MulLe(0, z, g.spz);
    DivUnique(z * g.spz, g.spz, z, 0);
    assert BlockNr(g, p) % g.spz == 0 by {
      assert p == zi * g.spz * g.bs;
      DivUnique(p, g.bs, zi * g.spz, 0);
    }
  }

  lemma ZoneAfter(g: Geo, zi: nat)
    requires g.Valid()
    ensures (zi + 1) * g.ZoneBytes() == zi * g.ZoneBytes() + g.bs * g.spz && g.bs * g.spz > 0
  {
    MulGrows(0, g.spz, g.bs);
  }

  // The first n data zones, or single indirect zones under the double one.
  ghost function FirstData(n: nat): set<Slot> {
    set zi: nat | zi < n :: Data(zi)
  }

  ghost function FirstLeaves(n: nat): set<Slot> {
    set i: nat | i < n :: Leaf(i)
  }

  lemma NoneFreed(g: Geo, owner: map<int, Owner>, f: nat)
    ensures Left(owner, f, FirstData(0)) == owner.Keys && 0 == 0 * g.ZoneBytes()
  {}

  lemma NextData(n: nat)
    ensures Data(n) !in FirstData(n) && FirstData(n + 1) == FirstData(n) + {Data(n)}
  {}

  lemma NextLeaf(done: set<Slot>, n: nat)
    requires forall sl :: sl in done ==> !sl.Leaf?
    ensures done + FirstLeaves(0) == done
    ensures Leaf(n) !in done + FirstLeaves(n) && done + FirstLeaves(n + 1) == done + FirstLeaves(n) + {Leaf(n)}
  {}

  // The zones stepped through are those that begin before the end.
  lemma DoneData(g: Geo, size: nat, n: nat)
    requires g.Valid() && n * g.ZoneBytes() >= size && (n > 0 ==> (n - 1) * g.ZoneBytes() < size)
    ensures forall sl :: sl in FirstData(n) <==> sl.Data? && sl.zi * g.ZoneBytes() < size
  {
    forall zi: nat ensures zi < n <==> zi * g.ZoneBytes() < size {
      if zi < n {
        MulLe(zi, n - 1, g.ZoneBytes());
      } else {
        MulLe(n, zi, g.ZoneBytes());
      }
    }
  }

  // No zone of the file is mapped past its end, so none is left over.
  lemma NoneLeftOver(g: Geo, store: Store, inodes: seq<Inode>, owner: map<int, Owner>, f: nat, done: set<Slot>)
    requires g.Valid() && InodesOk(inodes) && Owned(g, store, inodes, owner) && f < |inodes|
    requires MappedBelow(g, store, inodes[f], inodes[f].size)
    requires forall zi: nat :: zi * g.ZoneBytes() < inodes[f].size ==> Data(zi) in done
    requires Single in done
    requires inodes[f].zone[DOUBLE] != NO_ZONE ==> Double in done && forall i: nat :: i < g.Inds() ==> Leaf(i) in done
    ensures Left(owner, f, done) == Without(owner, f).Keys
  {
    forall z | z in owner && owner[z].file == f ensures owner[z].slot in done {
      assert ZoneAt(g, store, inodes[owner[z].file], owner[z].slot) == z;
      if owner[z].slot.Data? {
        assert ZoneOf(g, store, inodes[f], owner[z].slot.zi) == z;
      }
    }
  }

  // The other trees are as they were.
  lemma Wiped(g: Geo, store: Store, inodes: seq<Inode>, owner: map<int, Owner>, f: nat)
    requires g.Valid() && InodesOk(inodes) && Owned(g, store, inodes, owner) && f < |inodes|
    ensures var inodes' := inodes[f := EMPTY];
      InodesOk(inodes') && Owned(g, store, inodes', Without(owner, f)) && FileOk(g, store, EMPTY, 0)
  {
    var inodes' := inodes[f := EMPTY];
    forall sl | SlotOk(g, sl) ensures ZoneAt(g, store, EMPTY, sl) == NO_ZONE {}
    forall f', sl | 0 <= f' < |inodes| && SlotOk(g, sl) && ZoneAt(g, store, inodes'[f'], sl) != NO_ZONE
      ensures f' != f && ZoneAt(g, store, inodes'[f'], sl) == ZoneAt(g, store, inodes[f'], sl)
    {}
    forall z | z in Without(owner, f) ensures ZoneAt(g, store, inodes'[owner[z].file], owner[z].slot) == z {
      assert ZoneAt(g, store, inodes[owner[z].file], owner[z].slot) == z;
    }
  }

  // Why a zone could not be mapped: none was free, or, that one set aside,
  // none for an indirect zone.
  ghost predicate Stuck(g: Geo, store: Store, inodes: seq<Inode>, owner: map<int, Owner>, owner': map<int, Owner>,
                        f: nat, zi: nat)
    requires g.Valid() && InodesOk(inodes) && f < |inodes|
  {
    if Room(g, owner') == 0 then owner' == owner
    else Room(g, owner') == 1 && zi >= NR_DZONE_NUM && ZoneAt(g, store, inodes[f], HolderSlot(g, zi)) == NO_ZONE
  }

  // What was taken, and whether there was room, in terms of the state before.
  lemma TakeJudged(g: Geo, store: Store, inodes: seq<Inode>, owner: map<int, Owner>, owner': map<int, Owner>, f: nat,
                   zi: nat)
    requires g.Valid() && InodesOk(inodes) && f < |inodes| && zi < g.MaxZones()
    requires Owned(g, store, inodes, owner') && Grown(owner, owner', f, Path(g, zi))
    requires ZoneOf(g, store, inodes[f], zi) == NO_ZONE ==> Stuck(g, store, inodes, owner, owner', f, zi)
    ensures ZoneOf(g, store, inodes[f], zi) != NO_ZONE <==> HasRoom(g, owner, f, Path(g, zi))
    ensures Took(g, owner, owner', f,
                 if ZoneOf(g, store, inodes[f], zi) != NO_ZONE then Path(g, zi) else Leftover(g, owner, f, Path(g, zi)))
  {
    OwnedDistinct(g, store, inodes, owner');
    MappedPath(g, store, inodes, owner', f, zi);
    RoomLeft(g, owner');
    PathCovers(g, zi);
    if ZoneOf(g, store, inodes[f], zi) != NO_ZONE {
      GotZone(g, owner, owner', f, Path(g, zi));
    } else {
      var h := if zi >= NR_DZONE_NUM then HolderSlot(g, zi) else Single;
      PlacesAre(g, store, inodes, owner', f, h);
      NoZone(g, owner, owner', f, Path(g, zi), Data(zi), h);
    }
  }
}
