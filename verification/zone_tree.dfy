// The zone tree of a file: seven direct zone numbers in the inode, a single
// indirect block, and a double indirect block of single indirect blocks.
// Every zone in use has one owner: a place in the tree of one file.

module ZoneTree {
  import opened Basics
  import opened Blocks

  const NR_DZONE_NUM := 7
  const NR_ZONE_NUMS := 9
  // Where the inode keeps the single and the double indirect zone.
  const SINGLE := 7
  const DOUBLE := 8

  type Store = seq<Block>

  // Block size, blocks per zone (a power of two in practice), and the range
  // of data zones.
  datatype Geo = Geo(bs: nat, spz: nat, first: nat, nzones: nat) {
    predicate Valid() {
      2 <= bs && 0 < spz && 0 < first <= nzones <= 0xFFFF
    }

    // Zone numbers in an indirect block.
    function Inds(): nat {
      bs / 2
    }

    function MaxZones(): nat {
      NR_DZONE_NUM + Inds() + Inds() * Inds()
    }

    function ZoneBytes(): nat {
      bs * spz
    }
  }

  datatype Inode = Inode(size: nat, zone: seq<int>)

  // The first block of a zone.
  function FirstBlock(g: Geo, z: int): int {
    z * g.spz
  }

  lemma FirstBlockApart(g: Geo, z: int, z': int)
    requires g.Valid() && z != z'
    ensures FirstBlock(g, z) != FirstBlock(g, z')
  {
    if z < z' {
      FirstBlockGrows(g, z, z');
    } else {
      FirstBlockGrows(g, z', z);
    }
  }

  lemma FirstBlockGrows(g: Geo, z: int, z': int)
    requires g.Valid() && z < z'
    ensures FirstBlock(g, z) + g.spz <= FirstBlock(g, z')
  {
    MulGrows(z, z', g.spz);
  }

  // Entry i of the indirect block in zone z; NO_ZONE where there is none.
  function Entry(g: Geo, store: Store, z: int, i: nat): (e: int) {
    var b := FirstBlock(g, z);
    if z <= NO_ZONE || b < 0 || b >= |store| || 2 * i + 1 >= |store[b]| then NO_ZONE
    else Ind(store[b], i)
  }

  // The zone that holds relative zone zi of a file, or NO_ZONE.
  function ZoneOf(g: Geo, store: Store, ino: Inode, zi: nat): int
    requires g.Valid() && |ino.zone| == NR_ZONE_NUMS
  {
    if zi < NR_DZONE_NUM then ino.zone[zi]
    else
      var excess := zi - NR_DZONE_NUM;
      if excess < g.Inds() then Entry(g, store, ino.zone[SINGLE], excess)
      else
        var e := excess - g.Inds();
        Entry(g, store, Entry(g, store, ino.zone[DOUBLE], e / g.Inds()), e % g.Inds())
  }

  // A place in a tree: a data zone, the single indirect zone, the double
  // indirect zone, or one of the single indirect zones under it.
  datatype Slot = Data(zi: nat) | Single | Double | Leaf(i: nat)

  predicate SlotOk(g: Geo, sl: Slot) {
    match sl
    case Data(zi) => zi < g.MaxZones()
    case Leaf(i) => i < g.Inds()
    case _ => true
  }

  function ZoneAt(g: Geo, store: Store, ino: Inode, sl: Slot): int
    requires g.Valid() && |ino.zone| == NR_ZONE_NUMS
  {
    match sl
    case Data(zi) => ZoneOf(g, store, ino, zi)
    case Single => ino.zone[SINGLE]
    case Double => ino.zone[DOUBLE]
    case Leaf(i) => Entry(g, store, ino.zone[DOUBLE], i)
  }

  datatype Owner = Owner(file: nat, slot: Slot)

  // A store large enough for all zones, of proper blocks.
  ghost predicate StoreOk(g: Geo, store: Store) {
    && FirstBlock(g, g.nzones) <= |store|
    && forall b :: 0 <= b < |store| ==> IsBlock(store[b], g.bs)
  }

  ghost predicate InodesOk(inodes: seq<Inode>) {
    forall f :: 0 <= f < |inodes| ==> |inodes[f].zone| == NR_ZONE_NUMS
  }

  // Each zone reachable from a file has that place as its owner, and each
  // owned zone is reachable from there: so every zone is reached once.
  ghost predicate Owned(g: Geo, store: Store, inodes: seq<Inode>, owner: map<int, Owner>)
    requires g.Valid() && InodesOk(inodes)
  {
    && (forall f, sl {:trigger ZoneAt(g, store, inodes[f], sl)} ::
          0 <= f < |inodes| && SlotOk(g, sl) && ZoneAt(g, store, inodes[f], sl) != NO_ZONE ==>
          ZoneAt(g, store, inodes[f], sl) in owner && owner[ZoneAt(g, store, inodes[f], sl)] == Owner(f, sl))
    && (forall z :: z in owner ==>
          && g.first <= z < g.nzones && owner[z].file < |inodes| && SlotOk(g, owner[z].slot)
          && ZoneAt(g, store, inodes[owner[z].file], owner[z].slot) == z)
  }

  // Only the entry of place (f, sl) differs, and is now z.
  ghost predicate Attached(g: Geo, store: Store, inodes: seq<Inode>, store': Store, inodes': seq<Inode>,
                           f: nat, sl: Slot, z: int)
    requires g.Valid() && InodesOk(inodes) && InodesOk(inodes') && |inodes'| == |inodes|
  {
    forall f', sl' :: 0 <= f' < |inodes| && SlotOk(g, sl') ==>
      ZoneAt(g, store', inodes'[f'], sl') ==
        if f' == f && sl' == sl then z else ZoneAt(g, store, inodes[f'], sl')
  }

  lemma AttachOwned(g: Geo, store: Store, inodes: seq<Inode>, store': Store, inodes': seq<Inode>,
                    owner: map<int, Owner>, f: nat, sl: Slot, z: int)
    requires g.Valid() && InodesOk(inodes) && InodesOk(inodes') && |inodes'| == |inodes|
    requires Owned(g, store, inodes, owner) && Attached(g, store, inodes, store', inodes', f, sl, z)
    requires f < |inodes| && SlotOk(g, sl) && ZoneAt(g, store, inodes[f], sl) == NO_ZONE
    requires g.first <= z < g.nzones && z !in owner
    ensures Owned(g, store', inodes', owner[z := Owner(f, sl)])
  {
    var owner' := owner[z := Owner(f, sl)];
    forall w | w in owner' && w != z
      ensures ZoneAt(g, store', inodes'[owner'[w].file], owner'[w].slot) == w
    {
      assert ZoneAt(g, store, inodes[owner[w].file], owner[w].slot) == w;
    }
  }

  // ---------------------------------------------------------------------
  // What a tree depends on

  // A block that is not the first of zone z does not matter to its entries.
  lemma EntryFrame(g: Geo, store: Store, b: nat, data: Block, z: int, i: nat)
    requires b < |store| && FirstBlock(g, z) != b
    ensures Entry(g, store[b := data], z, i) == Entry(g, store, z, i)
  {}

  lemma EntryAt(g: Geo, store: Store, z: int, i: nat)
    requires g.Valid() && StoreOk(g, store) && 0 < z < g.nzones && i < g.Inds()
    ensures 0 <= FirstBlock(g, z) < |store| && 2 * i + 1 < |store[FirstBlock(g, z)]|
    ensures Entry(g, store, z, i) == Ind(store[FirstBlock(g, z)], i)
    ensures 0 <= Entry(g, store, z, i) < 0x10000
  {
    ZoneFits(g, store, z);
    IndRange(store[FirstBlock(g, z)], g.bs, i);
  }

  lemma ZoneFits(g: Geo, store: Store, z: int)
    requires g.Valid() && StoreOk(g, store) && 0 <= z < g.nzones
    ensures 0 <= FirstBlock(g, z) && FirstBlock(g, z) + g.spz <= |store|
  {
    FirstBlockGrows(g, z, g.nzones);
    if z > 0 {
      FirstBlockGrows(g, 0, z);
    }
  }

  // Zone z is not an indirect zone of this file.
  ghost predicate NotIndirect(g: Geo, store: Store, ino: Inode, z: int)
    requires g.Valid() && |ino.zone| == NR_ZONE_NUMS
  {
    && z != ino.zone[SINGLE] && z != ino.zone[DOUBLE]
    && forall i :: 0 <= i < g.Inds() ==> z != Entry(g, store, ino.zone[DOUBLE], i)
  }

  // Rewriting the first block of a zone leaves the trees alone that do not use
  // the zone as an indirect block.
  lemma ZoneAtFrame(g: Geo, store: Store, ino: Inode, z: int, data: Block, sl: Slot)
    requires g.Valid() && |ino.zone| == NR_ZONE_NUMS && SlotOk(g, sl)
    requires 0 <= FirstBlock(g, z) < |store| && NotIndirect(g, store, ino, z)
    ensures ZoneAt(g, store[FirstBlock(g, z) := data], ino, sl) == ZoneAt(g, store, ino, sl)
  {
    var b := FirstBlock(g, z);
    FirstBlockApart(g, z, ino.zone[SINGLE]);
    FirstBlockApart(g, z, ino.zone[DOUBLE]);
    match sl
    case Data(zi) =>
      if zi >= NR_DZONE_NUM + g.Inds() {
        var e := zi - NR_DZONE_NUM - g.Inds();
        DoubleIndex(g, zi);
        var l := Entry(g, store, ino.zone[DOUBLE], e / g.Inds());
        EntryFrame(g, store, b, data, ino.zone[DOUBLE], e / g.Inds());
        FirstBlockApart(g, z, l);
        EntryFrame(g, store, b, data, l, e % g.Inds());
      }
    case _ =>
  }

  // Where a relative zone of the double indirect range is found.
  lemma DoubleIndex(g: Geo, zi: nat)
    requires g.Valid() && NR_DZONE_NUM + g.Inds() <= zi < g.MaxZones()
    ensures var e := zi - NR_DZONE_NUM - g.Inds();
      0 <= e / g.Inds() < g.Inds() && 0 <= e % g.Inds() < g.Inds()
  {
    DivBound(zi - NR_DZONE_NUM - g.Inds(), g.Inds());
  }

  lemma DivBound(e: nat, n: nat)
    requires 0 < n && e < n * n
    ensures e / n < n && e % n < n
  {
    MulLe(n, e / n, n);
  }

  // ---------------------------------------------------------------------
  // Growing a tree

  // A free zone is nobody's indirect zone.
  lemma FreeNotIndirect(g: Geo, store: Store, inodes: seq<Inode>, owner: map<int, Owner>, f: nat, z: int)
    requires g.Valid() && InodesOk(inodes) && Owned(g, store, inodes, owner)
    requires f < |inodes| && z !in owner && z != NO_ZONE
    ensures NotIndirect(g, store, inodes[f], z)
  {
    assert ZoneAt(g, store, inodes[f], Single) != z;
    assert ZoneAt(g, store, inodes[f], Double) != z;
    forall i | 0 <= i < g.Inds() ensures z != Entry(g, store, inodes[f].zone[DOUBLE], i) {
      assert ZoneAt(g, store, inodes[f], Leaf(i)) != z;
    }
  }

  // A zone of one file is not an indirect zone of another, and a data zone is
  // not an indirect zone of anybody.
  lemma OwnedNotIndirect(g: Geo, store: Store, inodes: seq<Inode>, owner: map<int, Owner>, f: nat, z: int)
    requires g.Valid() && InodesOk(inodes) && Owned(g, store, inodes, owner)
    requires f < |inodes| && z in owner && (owner[z].file != f || owner[z].slot.Data?)
    ensures NotIndirect(g, store, inodes[f], z)
  {
    assert z != NO_ZONE;
    assert ZoneAt(g, store, inodes[f], Single) != z;
    assert ZoneAt(g, store, inodes[f], Double) != z;
    forall i | 0 <= i < g.Inds() ensures z != Entry(g, store, inodes[f].zone[DOUBLE], i) {
      assert ZoneAt(g, store, inodes[f], Leaf(i)) != z;
    }
  }

  // A direct zone goes into the inode.
  lemma AttachDirect(g: Geo, store: Store, inodes: seq<Inode>, f: nat, zi: nat, z: int)
    requires g.Valid() && InodesOk(inodes) && f < |inodes| && zi < NR_DZONE_NUM
    ensures var inodes' := inodes[f := inodes[f].(zone := inodes[f].zone[zi := z])];
      InodesOk(inodes') && Attached(g, store, inodes, store, inodes', f, Data(zi), z)
  {
    var inodes' := inodes[f := inodes[f].(zone := inodes[f].zone[zi := z])];
    forall f', sl' | 0 <= f' < |inodes| && SlotOk(g, sl')
      ensures ZoneAt(g, store, inodes'[f'], sl') ==
              if f' == f && sl' == Data(zi) then z else ZoneAt(g, store, inodes[f'], sl')
    {}
  }

  // A fresh indirect block, all zeros, hung into the inode.
  lemma AttachIndirect(g: Geo, store: Store, inodes: seq<Inode>, owner: map<int, Owner>, f: nat, top: nat, z: int)
    requires g.Valid() && InodesOk(inodes) && StoreOk(g, store) && Owned(g, store, inodes, owner)
    requires f < |inodes| && (top == SINGLE || top == DOUBLE) && inodes[f].zone[top] == NO_ZONE
    requires g.first <= z < g.nzones && z !in owner
    ensures 0 <= FirstBlock(g, z) < |store|
    ensures var inodes' := inodes[f := inodes[f].(zone := inodes[f].zone[top := z])];
      var store' := store[FirstBlock(g, z) := Zeros(g.bs)];
      InodesOk(inodes') &&
      Attached(g, store, inodes, store', inodes', f, if top == SINGLE then Single else Double, z)
  {
    ZoneFits(g, store, z);
    ZerosBlock(g.bs);
    var b := FirstBlock(g, z);
    var sl := if top == SINGLE then Single else Double;
    var inodes' := inodes[f := inodes[f].(zone := inodes[f].zone[top := z])];
    var store' := store[b := Zeros(g.bs)];
    forall f', sl' | 0 <= f' < |inodes| && SlotOk(g, sl')
      ensures ZoneAt(g, store', inodes'[f'], sl') ==
        if f' == f && sl' == sl then z else ZoneAt(g, store, inodes[f'], sl')
    {
      FreeNotIndirect(g, store, inodes, owner, f', z);
      ZoneAtFrame(g, store, inodes[f'], z, Zeros(g.bs), sl');
      if f' == f {
        NewTop(g, store', inodes[f], top, z, sl');
      }
    }
  }

  // Under a fresh indirect block there is nothing yet.
  lemma NewTop(g: Geo, store: Store, ino: Inode, top: nat, z: int, sl: Slot)
    requires g.Valid() && |ino.zone| == NR_ZONE_NUMS && SlotOk(g, sl) && g.first <= z < g.nzones
    requires (top == SINGLE || top == DOUBLE) && ino.zone[top] == NO_ZONE
    requires 0 <= FirstBlock(g, z) < |store| && store[FirstBlock(g, z)] == Zeros(g.bs)
    ensures ZoneAt(g, store, ino.(zone := ino.zone[top := z]), sl) ==
            if sl == (if top == SINGLE then Single else Double) then z else ZoneAt(g, store, ino, sl)
  {
    forall i: nat ensures Entry(g, store, z, i) == NO_ZONE && Entry(g, store, NO_ZONE, i) == NO_ZONE {
      ZerosBlock(g.bs);
    }
  }

  // A fresh single indirect block, all zeros, hung into the double one.
  lemma AttachLeaf(g: Geo, store: Store, inodes: seq<Inode>, owner: map<int, Owner>, f: nat, i: nat, z: int)
    requires g.Valid() && InodesOk(inodes) && StoreOk(g, store) && Owned(g, store, inodes, owner)
    requires f < |inodes| && i < g.Inds() && inodes[f].zone[DOUBLE] != NO_ZONE
    requires ZoneAt(g, store, inodes[f], Leaf(i)) == NO_ZONE
    requires g.first <= z < g.nzones && z !in owner
    ensures var d := FirstBlock(g, inodes[f].zone[DOUBLE]);
      && 0 <= FirstBlock(g, z) < |store| && 0 <= d < |store| && 2 * i + 1 < |store[d]|
      && Attached(g, store, inodes, store[d := PutInd(store[d], i, z)][FirstBlock(g, z) := Zeros(g.bs)], inodes, f,
        Leaf(i), z)
  {
    var dz := inodes[f].zone[DOUBLE];
    assert ZoneAt(g, store, inodes[f], Double) == dz;
    EntryAt(g, store, dz, i);
    ZoneFits(g, store, z);
    var d, b := FirstBlock(g, dz), FirstBlock(g, z);
    FirstBlockApart(g, dz, z);
    ZerosBlock(g.bs);
    var store1 := store[b := Zeros(g.bs)];
    var store' := store1[d := PutInd(store[d], i, z)];
    assert store' == store[d := PutInd(store[d], i, z)][b := Zeros(g.bs)];
    forall f', sl' | 0 <= f' < |inodes| && SlotOk(g, sl')
      ensures ZoneAt(g, store', inodes[f'], sl') ==
        if f' == f && sl' == Leaf(i) then z else ZoneAt(g, store, inodes[f'], sl')
    {
      FreeNotIndirect(g, store, inodes, owner, f', z);
      ZoneAtFrame(g, store, inodes[f'], z, Zeros(g.bs), sl');
      if f' != f {
        OwnedNotIndirect(g, store, inodes, owner, f', dz);
        NotIndirectFrame(g, store, store1, inodes[f'], z, Zeros(g.bs), dz);
        ZoneAtFrame(g, store1, inodes[f'], dz, PutInd(store[d], i, z), sl');
      } else {
        LeavesApart(g, store, inodes, owner, f);
        forall k | 0 <= k < g.Inds() ensures Entry(g, store1, dz, k) == Entry(g, store, dz, k) {
          EntryFrame(g, store, b, Zeros(g.bs), dz, k);
        }
        NewLeaf(g, store1, inodes[f], i, z, sl');
      }
    }
  }

  // The indirect zones of one file are all different.
  lemma LeavesApart(g: Geo, store: Store, inodes: seq<Inode>, owner: map<int, Owner>, f: nat)
    requires g.Valid() && InodesOk(inodes) && Owned(g, store, inodes, owner) && f < |inodes|
    ensures var ino := inodes[f];
      && (ino.zone[DOUBLE] != NO_ZONE ==> ino.zone[SINGLE] != ino.zone[DOUBLE])
      && (forall i :: 0 <= i < g.Inds() && Entry(g, store, ino.zone[DOUBLE], i) != NO_ZONE ==>
            Entry(g, store, ino.zone[DOUBLE], i) != ino.zone[DOUBLE]
              && Entry(g, store, ino.zone[DOUBLE], i) != ino.zone[SINGLE])
      && (forall i, j :: 0 <= i < j < g.Inds() && Entry(g, store, ino.zone[DOUBLE], i) != NO_ZONE ==>
            Entry(g, store, ino.zone[DOUBLE], i) != Entry(g, store, ino.zone[DOUBLE], j))
  {
    var ino := inodes[f];
    assert ZoneAt(g, store, ino, Single) == ino.zone[SINGLE];
    assert ZoneAt(g, store, ino, Double) == ino.zone[DOUBLE];
    forall i | 0 <= i < g.Inds() ensures ZoneAt(g, store, ino, Leaf(i)) == Entry(g, store, ino.zone[DOUBLE], i) {}
  }

  lemma NewLeaf(g: Geo, store: Store, ino: Inode, i: nat, z: int, sl: Slot)
    requires g.Valid() && |ino.zone| == NR_ZONE_NUMS && SlotOk(g, sl) && StoreOk(g, store)
    requires g.first <= z < g.nzones && 0 < ino.zone[DOUBLE] < g.nzones && i < g.Inds()
    requires z != ino.zone[DOUBLE] && ino.zone[SINGLE] != ino.zone[DOUBLE]
    requires forall k :: 0 <= k < g.Inds() ==> Entry(g, store, ino.zone[DOUBLE], k) != ino.zone[DOUBLE]
    requires Entry(g, store, ino.zone[DOUBLE], i) == NO_ZONE
    requires 0 <= FirstBlock(g, z) < |store| && store[FirstBlock(g, z)] == Zeros(g.bs)
    ensures var d := FirstBlock(g, ino.zone[DOUBLE]);
      && 0 <= d < |store| && 2 * i + 1 < |store[d]|
      && ZoneAt(g, store[d := PutInd(store[d], i, z)], ino, sl) ==
           if sl == Leaf(i) then z else ZoneAt(g, store, ino, sl)
  {
    var dz := ino.zone[DOUBLE];
    EntryAt(g, store, dz, i);
    var d := FirstBlock(g, dz);
    var store' := store[d := PutInd(store[d], i, z)];
    forall k | 0 <= k < g.Inds() ensures Entry(g, store', dz, k) == if k == i then z else Entry(g, store, dz, k) {
      PutIndAt(store[d], g.bs, i, z, k);
    }
    forall w, k: nat | w != dz ensures Entry(g, store', w, k) == Entry(g, store, w, k) {
      FirstBlockApart(g, w, dz);
      EntryFrame(g, store, d, PutInd(store[d], i, z), w, k);
    }
    ZerosBlock(g.bs);
    if sl.Data? && sl.zi >= NR_DZONE_NUM + g.Inds() {
      DoubleIndex(g, sl.zi);
    }
  }

  lemma NotIndirectFrame(g: Geo, store: Store, store1: Store, ino: Inode, z: int, data: Block, w: int)
    requires g.Valid() && |ino.zone| == NR_ZONE_NUMS && 0 <= FirstBlock(g, z) < |store|
    requires store1 == store[FirstBlock(g, z) := data]
    requires NotIndirect(g, store, ino, z) && NotIndirect(g, store, ino, w)
    ensures NotIndirect(g, store1, ino, w)
  {
    forall i | 0 <= i < g.Inds() ensures w != Entry(g, store1, ino.zone[DOUBLE], i) {
      ZoneAtFrame(g, store, ino, z, data, Leaf(i));
    }
  }

  // ---------------------------------------------------------------------
  // Entering a data zone in an indirect block

  // The indirect zone and the entry that hold relative zone zi.
  function HolderSlot(g: Geo, zi: nat): Slot
    requires g.Valid() && NR_DZONE_NUM <= zi
  {
    if zi < NR_DZONE_NUM + g.Inds() then Single else Leaf((zi - NR_DZONE_NUM - g.Inds()) / g.Inds())
  }

  function HolderIndex(g: Geo, zi: nat): (i: nat)
    requires g.Valid() && NR_DZONE_NUM <= zi
    ensures i < g.Inds()
  {
    if zi < NR_DZONE_NUM + g.Inds() then zi - NR_DZONE_NUM else (zi - NR_DZONE_NUM - g.Inds()) % g.Inds()
  }

  lemma HolderUnique(g: Geo, zi: nat, zj: nat)
    requires g.Valid() && NR_DZONE_NUM <= zi && NR_DZONE_NUM <= zj
    requires HolderSlot(g, zi) == HolderSlot(g, zj) && HolderIndex(g, zi) == HolderIndex(g, zj)
    ensures zi == zj
  {}

  lemma HolderZone(g: Geo, store: Store, ino: Inode, zi: nat)
    requires g.Valid() && |ino.zone| == NR_ZONE_NUMS && NR_DZONE_NUM <= zi < g.MaxZones()
    ensures SlotOk(g, HolderSlot(g, zi))
    ensures ZoneOf(g, store, ino, zi) == Entry(g, store, ZoneAt(g, store, ino, HolderSlot(g, zi)), HolderIndex(g, zi))
  {
    if zi >= NR_DZONE_NUM + g.Inds() {
      DoubleIndex(g, zi);
    }
  }

  lemma AttachEntry(g: Geo, store: Store, inodes: seq<Inode>, owner: map<int, Owner>, f: nat, zi: nat, w: int, z: int)
    requires g.Valid() && InodesOk(inodes) && StoreOk(g, store) && Owned(g, store, inodes, owner)
    requires f < |inodes| && NR_DZONE_NUM <= zi < g.MaxZones()
    requires w == ZoneAt(g, store, inodes[f], HolderSlot(g, zi)) && w != NO_ZONE
    requires g.first <= z < g.nzones
    ensures var b, i := FirstBlock(g, w), HolderIndex(g, zi);
      && 0 <= b < |store| && 2 * i + 1 < |store[b]|
      && Attached(g, store, inodes, store[b := PutInd(store[b], i, z)], inodes, f, Data(zi), z)
  {
    HolderZone(g, store, inodes[f], zi);
    var b, i := FirstBlock(g, w), HolderIndex(g, zi);
    EntryAt(g, store, w, i);
    var store' := store[b := PutInd(store[b], i, z)];
    forall f', sl' | 0 <= f' < |inodes| && SlotOk(g, sl')
      ensures ZoneAt(g, store', inodes[f'], sl') ==
        if f' == f && sl' == Data(zi) then z else ZoneAt(g, store, inodes[f'], sl')
    {
      if f' != f {
        OwnedNotIndirect(g, store, inodes, owner, f', w);
        ZoneAtFrame(g, store, inodes[f'], w, PutInd(store[b], i, z), sl');
      } else {
        EntrySame(g, store, inodes, owner, f, zi, w, z, sl');
      }
    }
  }

  lemma EntrySame(g: Geo, store: Store, inodes: seq<Inode>, owner: map<int, Owner>, f: nat, zi: nat, w: int, z: int,
                  sl: Slot)
    requires g.Valid() && InodesOk(inodes) && StoreOk(g, store) && Owned(g, store, inodes, owner)
    requires f < |inodes| && NR_DZONE_NUM <= zi < g.MaxZones() && SlotOk(g, sl)
    requires w == ZoneAt(g, store, inodes[f], HolderSlot(g, zi)) && w != NO_ZONE
    requires g.first <= z < g.nzones
    requires 0 <= FirstBlock(g, w) < |store| && 2 * HolderIndex(g, zi) + 1 < |store[FirstBlock(g, w)]|
    ensures var b, i := FirstBlock(g, w), HolderIndex(g, zi);
      ZoneAt(g, store[b := PutInd(store[b], i, z)], inodes[f], sl) ==
        if sl == Data(zi) then z else ZoneAt(g, store, inodes[f], sl)
  {
    var ino := inodes[f];
    var b, i := FirstBlock(g, w), HolderIndex(g, zi);
    var store' := store[b := PutInd(store[b], i, z)];
    HolderZone(g, store, ino, zi);
    assert owner[w] == Owner(f, HolderSlot(g, zi));
    assert w != ino.zone[DOUBLE] by {
      assert ZoneAt(g, store, ino, Double) == ino.zone[DOUBLE];
    }
    FirstBlockApart(g, w, ino.zone[DOUBLE]);
    forall k: nat ensures Entry(g, store', ino.zone[DOUBLE], k) == Entry(g, store, ino.zone[DOUBLE], k) {
      EntryFrame(g, store, b, PutInd(store[b], i, z), ino.zone[DOUBLE], k);
    }
    if sl.Data? && sl.zi >= NR_DZONE_NUM {
      HolderZone(g, store, ino, sl.zi);
      HolderZone(g, store', ino, sl.zi);
      var hs := HolderSlot(g, sl.zi);
      var v := ZoneAt(g, store, ino, hs);
      assert ZoneAt(g, store', ino, hs) == v;
      if v == w {
        assert owner[v] == Owner(f, hs);
        PutIndAt(store[b], g.bs, i, z, HolderIndex(g, sl.zi));
        EntryAt(g, store, w, HolderIndex(g, sl.zi));
        if HolderIndex(g, sl.zi) == i {
          HolderUnique(g, zi, sl.zi);
        }
      } else {
        FirstBlockApart(g, w, v);
        EntryFrame(g, store, b, PutInd(store[b], i, z), v, HolderIndex(g, sl.zi));
      }
    }
  }
}
