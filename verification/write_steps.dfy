// A write, step by step: what each chunk adds, when it stops, and what is then
// true of the file written and of the others.

module WriteSteps {
  import opened Blocks
  import opened ZoneTree
  import opened FileBlocks
  import opened FileBytes
  import opened FileWrites
  import opened ZoneSpace

  // What a write is about: the blocks, the inodes, and who uses each zone.
  datatype Image = Image(store: Store, inodes: seq<Inode>, owner: map<int, Owner>)

  // From b to c, a chunk has been written, or there was no room for it.
  ghost predicate ChunkDid(g: Geo, b: Image, c: Image, f: nat, pos: nat, data: seq<int>, path: seq<Slot>, ok: bool) {
    && ChunkFits(g, pos, data) && InodesOk(b.inodes) && InodesOk(c.inodes) && f < |b.inodes| == |c.inodes|
    && OthersKept(g, b.store, b.inodes, c.store, c.inodes, f) && Room(g, c.owner) >= 0
    && (ok <==> HasRoom(g, b.owner, f, path))
    && (ok ==>
          && |FileBlock(g, b.store, b.inodes[f], BlockNr(g, pos))| == g.bs
          && ChunkWritten(g, b.store, b.inodes[f], c.store, c.inodes[f], pos, data)
          && Took(g, b.owner, c.owner, f, path)
          && FirstZone(g, b.owner, b.store, b.inodes[f], c.store, c.inodes[f], pos))
    && (!ok ==>
          && Took(g, b.owner, c.owner, f, Leftover(g, b.owner, f, path))
          && c.inodes[f].size == b.inodes[f].size
          && DataSame(g, b.store, b.inodes, c.store, c.inodes)
          && BlocksKept(g, b.store, b.inodes, c.store, c.inodes, -1, 0))
  }

  // A zone that is there needs no room.
  lemma OldJudged(g: Geo, b: Image, f: nat, zi: nat)
    requires g.Valid() && InodesOk(b.inodes) && Owned(g, b.store, b.inodes, b.owner) && f < |b.inodes|
    requires zi < g.MaxZones()
    requires ZoneOf(g, b.store, b.inodes[f], zi) != NO_ZONE
    ensures HasRoom(g, b.owner, f, Path(g, zi)) && Took(g, b.owner, b.owner, f, Path(g, zi))
  {
    RoomLeft(g, b.owner);
    MappedPath(g, b.store, b.inodes, b.owner, f, zi);
    TookNone(g, b.owner, f, Path(g, zi));
  }

  // A chunk, written or not, for the file and for the others.
  lemma ChunkDone(g: Geo, store0: Store, inodes0: seq<Inode>, store: Store, inodes: seq<Inode>, store': Store,
                  inodes': seq<Inode>, f: nat, pos: nat, data: seq<int>, k: nat, chunk: seq<int>, lim: nat)
    requires g.Valid() && InodesOk(inodes0) && InodesOk(inodes) && InodesOk(inodes') && f < |inodes0|
    requires |inodes| == |inodes0|
    requires lim <= g.MaxZones() * g.ZoneBytes() && ChunkFits(g, pos + k, chunk)
    requires k + |chunk| <= |data| && chunk == data[k..k + |chunk|]
    requires |FileBlock(g, store, inodes[f], BlockNr(g, pos + k))| == g.bs
    requires k + |chunk| < |data| ==> (pos + k) % g.bs + |chunk| == g.bs
    requires OthersKept(g, store0, inodes0, store, inodes, f) && OthersKept(g, store, inodes, store', inodes', f)
    requires ChunkWritten(g, store, inodes[f], store', inodes'[f], pos + k, chunk)
    requires Underway(g, store0, inodes0[f], store, inodes[f], pos, data, k, lim)
    ensures OthersKept(g, store0, inodes0, store', inodes', f)
    ensures Underway(g, store0, inodes0[f], store', inodes'[f], pos, data, k + |chunk|, lim)
  {
    ReachBelow(g, lim);
    OthersKeptTrans(g, store0, inodes0, store, inodes, store', inodes', f);
    UnderwayNext(g, store0, inodes0[f], store, inodes[f], store', inodes'[f], pos, data, k, chunk, lim);
  }

  lemma ChunkLost(g: Geo, store0: Store, inodes0: seq<Inode>, store: Store, inodes: seq<Inode>, store': Store,
                  inodes': seq<Inode>, f: nat, pos: nat, data: seq<int>, k: nat, lim: nat)
    requires g.Valid() && InodesOk(inodes0) && InodesOk(inodes) && InodesOk(inodes') && f < |inodes0|
    requires |inodes| == |inodes0|
    requires lim <= g.MaxZones() * g.ZoneBytes() && k < |data| && pos < lim && |inodes'| == |inodes|
    requires OthersKept(g, store0, inodes0, store, inodes, f) && OthersKept(g, store, inodes, store', inodes', f)
    requires DataSame(g, store, inodes, store', inodes') && BlocksKept(g, store, inodes, store', inodes', -1, 0)
    requires inodes'[f].size == inodes[f].size
    requires Underway(g, store0, inodes0[f], store, inodes[f], pos, data, k, lim)
    ensures OthersKept(g, store0, inodes0, store', inodes', f)
    ensures Ended(g, store0, inodes0[f], store', inodes'[f], pos, data, k, lim)
  {
    ReachBelow(g, lim);
    assert Reach(g, pos);
    OthersKeptTrans(g, store0, inodes0, store, inodes, store', inodes', f);
    ChunkFailed(g, store0, inodes0[f], store, inodes, store', inodes', f, pos, data, k, lim);
  }

  // The zone of the first byte stays the one it got.
  lemma FirstZoneNext(g: Geo, owner0: map<int, Owner>, store0: Store, ino0: Inode, store: Store, ino: Inode,
                      store': Store, ino': Inode, pos: nat, data: seq<int>, k: nat, chunk: seq<int>)
    requires g.Valid() && |ino0.zone| == NR_ZONE_NUMS && |ino.zone| == NR_ZONE_NUMS && |ino'.zone| == NR_ZONE_NUMS
    requires 0 < k && k + |chunk| <= |data| && ChunkFits(g, pos + k, chunk)
    requires |FileBlock(g, store, ino, BlockNr(g, pos + k))| == g.bs
    requires FirstZone(g, owner0, store0, ino0, store, ino, pos) && Aligned(g, store, ino, pos, |data|, k)
    requires ChunkWritten(g, store, ino, store', ino', pos + k, chunk)
    ensures FirstZone(g, owner0, store0, ino0, store', ino', pos)
  {
    ZoneMono(g, pos, pos + k - 1);
    ZoneMono(g, pos + k - 1, pos + k);
    assert ZoneNr(g, pos) < g.MaxZones();
  }

  // From a to b, k bytes have been written to file f, and the zones at the
  // places taken have been found for that; no other file has changed.
  ghost predicate Going(g: Geo, lim: nat, a: Image, b: Image, f: nat, pos: nat, data: seq<int>, k: nat,
                        taken: seq<Slot>) {
    && g.Valid() && InodesOk(a.inodes) && InodesOk(b.inodes) && f < |a.inodes| == |b.inodes| && k <= |data|
    && OthersKept(g, a.store, a.inodes, b.store, b.inodes, f)
    && Underway(g, a.store, a.inodes[f], b.store, b.inodes[f], pos, data, k, lim)
    && Spent(g, a.owner, b.owner, f, taken)
    && (if k == 0 then b.owner == a.owner && b.inodes[f] == a.inodes[f]
        else FirstZone(g, a.owner, a.store, a.inodes[f], b.store, b.inodes[f], pos))
  }

  // And that was all, or there was no room for the places next.
  ghost predicate Stopped(g: Geo, lim: nat, a: Image, b: Image, f: nat, pos: nat, data: seq<int>, k: nat,
                          taken: seq<Slot>, next: seq<Slot>) {
    && g.Valid() && InodesOk(a.inodes) && InodesOk(b.inodes) && f < |a.inodes| == |b.inodes| && k <= |data|
    && OthersKept(g, a.store, a.inodes, b.store, b.inodes, f)
    && Ended(g, a.store, a.inodes[f], b.store, b.inodes[f], pos, data, k, lim)
    && HasRoom(g, a.owner, f, taken) && (k < |data| ==> !HasRoom(g, a.owner, f, taken + next))
    && (k > 0 ==> FirstZone(g, a.owner, a.store, a.inodes[f], b.store, b.inodes[f], pos))
  }

  lemma GoingStarts(g: Geo, lim: nat, a: Image, b: Image, f: nat, pos: nat, data: seq<int>)
    requires g.Valid() && InodesOk(a.inodes) && b.inodes == a.inodes && b.owner == a.owner && f < |a.inodes|
    requires OthersKept(g, a.store, a.inodes, b.store, b.inodes, f) && Owned(g, a.store, a.inodes, a.owner)
    requires Underway(g, a.store, a.inodes[f], b.store, b.inodes[f], pos, data, 0, lim)
    ensures Going(g, lim, a, b, f, pos, data, 0, [])
  {
    RoomLeft(g, a.owner);
    TookNone(g, a.owner, f, []);
  }

  lemma GoingOn(g: Geo, lim: nat, a: Image, b: Image, c: Image, f: nat, pos: nat, data: seq<int>, k: nat,
                chunk: seq<int>, taken: seq<Slot>, path: seq<Slot>)
    requires Going(g, lim, a, b, f, pos, data, k, taken) && lim <= g.MaxZones() * g.ZoneBytes()
    requires k + |chunk| <= |data| && chunk == data[k..k + |chunk|] && ChunkFits(g, pos + k, chunk)
    requires k + |chunk| < |data| ==> (pos + k) % g.bs + |chunk| == g.bs
    requires ChunkDid(g, b, c, f, pos + k, chunk, path, true)
    ensures Going(g, lim, a, c, f, pos, data, k + |chunk|, taken + path)
  {
    ChunkDone(g, a.store, a.inodes, b.store, b.inodes, c.store, c.inodes, f, pos, data, k, chunk, lim);
    if k > 0 {
      FirstZoneNext(g, a.owner, a.store, a.inodes[f], b.store, b.inodes[f], c.store, c.inodes[f], pos, data, k, chunk);
    }
    SpentMore(g, a.owner, b.owner, c.owner, f, taken, path);
  }

  lemma GoingStops(g: Geo, lim: nat, a: Image, b: Image, c: Image, f: nat, pos: nat, data: seq<int>, k: nat,
                   chunk: seq<int>, taken: seq<Slot>, path: seq<Slot>)
    requires Going(g, lim, a, b, f, pos, data, k, taken) && lim <= g.MaxZones() * g.ZoneBytes()
    requires k < |data| && pos < lim && ChunkDid(g, b, c, f, pos + k, chunk, path, false)
    ensures Stopped(g, lim, a, c, f, pos, data, k, taken, path)
  {
    ChunkLost(g, a.store, a.inodes, b.store, b.inodes, c.store, c.inodes, f, pos, data, k, lim);
    SpentFits(g, a.owner, b.owner, f, taken);
    NoRoom(g, a.owner, b.owner, f, taken, path);
    ReachBelow(g, lim);
    assert Reach(g, pos);
    assert ZoneOf(g, c.store, c.inodes[f], ZoneNr(g, pos)) == ZoneOf(g, b.store, b.inodes[f], ZoneNr(g, pos));
  }

  lemma GoingEnds(g: Geo, lim: nat, a: Image, b: Image, f: nat, pos: nat, data: seq<int>, taken: seq<Slot>)
    requires Going(g, lim, a, b, f, pos, data, |data|, taken)
    ensures Stopped(g, lim, a, b, f, pos, data, |data|, taken, [])
  {
    UnderwayEnds(g, a.store, a.inodes[f], b.store, b.inodes[f], pos, data, lim);
    SpentFits(g, a.owner, b.owner, f, taken);
  }

  // The write got as far as there was room.
  lemma StoppedReached(g: Geo, lim: nat, way: Ways, a: Image, b: Image, f: nat, pos: nat, data: seq<int>, k: nat,
                       taken: seq<Slot>, next: seq<Slot>)
    requires pos + |data| <= |way| && Stopped(g, lim, a, b, f, pos, data, k, taken, next)
    requires Tally(g, way, a.owner, f, pos, k, taken) && (k < |data| ==> next == way[pos + k])
    ensures Reached(g, way, a.owner, f, pos, |data|, k)
  {
    RoomReached(g, way, a.owner, f, pos, |data|, k, taken);
  }

  // The trees do not depend on the sizes.
  lemma SizeStorage(g: Geo, store: Store, inodes: seq<Inode>, inodes': seq<Inode>, owner: map<int, Owner>, f: nat,
                    size: nat)
    requires g.Valid() && InodesOk(inodes) && f < |inodes| && inodes' == inodes[f := inodes[f].(size := size)]
    requires Owned(g, store, inodes, owner)
    ensures InodesOk(inodes') && Owned(g, store, inodes', owner)
  {
    forall f', sl | 0 <= f' < |inodes| && SlotOk(g, sl)
      ensures ZoneAt(g, store, inodes'[f'], sl) == ZoneAt(g, store, inodes[f'], sl)
    {}
    SameOwned(g, store, inodes, store, inodes', owner);
  }

  // The last step of a write sets the size.
  lemma EndWrite(g: Geo, store0: Store, inodes0: seq<Inode>, store: Store, inodes: seq<Inode>, owner: map<int, Owner>,
                 f: nat, pos: nat, data: seq<int>, k: nat, lim: nat)
    requires g.Valid() && InodesOk(inodes0) && InodesOk(inodes) && f < |inodes| && k <= |data|
    requires lim <= g.MaxZones() * g.ZoneBytes() && Owned(g, store, inodes, owner)
    requires OthersKept(g, store0, inodes0, store, inodes, f)
    requires forall f' :: 0 <= f' < |inodes0| ==> FileOk(g, store0, inodes0[f'], lim)
    requires Ended(g, store0, inodes0[f], store, inodes[f], pos, data, k, lim)
    requires Max(inodes0[f].size, pos + k) <= lim
    ensures var inodes' := inodes[f := inodes[f].(size := Max(inodes0[f].size, pos + k))];
      && InodesOk(inodes') && Owned(g, store, inodes', owner)
      && OthersKept(g, store0, inodes0, store, inodes', f)
      && Wrote(g, store0, inodes0[f], store, inodes'[f], pos, data, k)
      && forall f' :: 0 <= f' < |inodes'| ==> FileOk(g, store, inodes'[f'], lim)
  {
    var size := Max(inodes0[f].size, pos + k);
    var inodes' := inodes[f := inodes[f].(size := size)];
    ReachBelow(g, lim);
    assert inodes0[f].size > 0 ==> Reach(g, inodes0[f].size - 1);
    SizeSet(g, store0, inodes0[f], store, inodes[f], pos, data, k, lim);
    SizeStorage(g, store, inodes, inodes', owner, f, size);
    forall f' | 0 <= f' < |inodes'| ensures FileOk(g, store, inodes'[f'], lim) {
      if f' != f {
        OthersContents(g, store0, inodes0, store, inodes, f, f', lim);
      }
    }
  }

  // The other files after a write, in terms of contents.
  lemma WriteSeen(g: Geo, store0: Store, inodes0: seq<Inode>, store: Store, inodes: seq<Inode>, f: nat, lim: nat)
    requires g.Valid() && InodesOk(inodes0) && InodesOk(inodes) && f < |inodes0| == |inodes|
    requires lim <= g.MaxZones() * g.ZoneBytes() && OthersKept(g, store0, inodes0, store, inodes, f)
    requires forall f' :: 0 <= f' < |inodes0| ==> FileOk(g, store0, inodes0[f'], lim)
    ensures forall f' :: 0 <= f' < |inodes| && f' != f ==>
      Contents(g, store, inodes[f']) == Contents(g, store0, inodes0[f'])
  {
    hide OthersKept, FileOk;
    ReachBelow(g, lim);
    forall f' | 0 <= f' < |inodes| && f' != f
      ensures Contents(g, store, inodes[f']) == Contents(g, store0, inodes0[f'])
    {
      assert FileOk(g, store0, inodes0[f'], lim);
      OthersContents(g, store0, inodes0, store, inodes, f, f', lim);
    }
  }

  // When the write was right, in terms of the state before.
  lemma WriteJudged(g: Geo, way: Ways, owner0: map<int, Owner>, store0: Store, ino0: Inode, store: Store, ino: Inode,
                    ino': Inode, f: nat, pos: nat, data: seq<int>, k: nat)
    requires g.Valid() && |ino0.zone| == NR_ZONE_NUMS && |ino.zone| == NR_ZONE_NUMS && k <= |data| && data != []
    requires Reach(g, pos)
    requires pos + |data| <= |way| && ino' == ino.(size := Max(ino0.size, pos + k))
    requires Wrote(g, store0, ino0, store, ino', pos, data, k)
    requires Reached(g, way, owner0, f, pos, |data|, k)
    requires k > 0 ==> FirstZone(g, owner0, store0, ino0, store, ino, pos)
    ensures Contents(g, store, ino') == Spliced(Contents(g, store0, ino0), pos, data[..k]) <==>
            !(&& Fits(g, way, owner0, f, pos, 1)
              && GapDirty(g, store0, ino0, NextZone(g, owner0.Keys, ZoneHint(g, ino0)), pos))
  {
    WriteRightIff(g, store0, ino0, store, ino', pos, data, k);
    SizeFrame(g, store, ino, ino'.size);
    assert k > 0 <==> Fits(g, way, owner0, f, pos, 1);
  }

  // A write that wrote something, or did not begin past the end, leaves no
  // file without its last zone.
  lemma StillAllAnchored(g: Geo, store0: Store, inodes0: seq<Inode>, store: Store, inodes: seq<Inode>,
                         f: nat, pos: nat, data: seq<int>, k: nat, lim: nat)
    requires g.Valid() && InodesOk(inodes0) && InodesOk(inodes) && f < |inodes0| && k <= |data|
    requires lim <= g.MaxZones() * g.ZoneBytes()
    requires forall f' :: 0 <= f' < |inodes0| ==> FileOk(g, store0, inodes0[f'], lim)
    requires OthersKept(g, store0, inodes0, store, inodes, f)
    requires Wrote(g, store0, inodes0[f], store, inodes[f], pos, data, k)
    requires k > 0 || pos <= inodes0[f].size
    requires forall f' :: 0 <= f' < |inodes0| ==> Anchored(g, store0, inodes0[f'])
    ensures forall f' :: 0 <= f' < |inodes| ==> Anchored(g, store, inodes[f'])
  {
    ReachBelow(g, lim);
    forall f' | 0 <= f' < |inodes| && f' != f ensures Anchored(g, store, inodes[f']) {
      assert Anchored(g, store0, inodes0[f']) && FileOk(g, store0, inodes0[f'], lim);
      if inodes0[f'].size > 0 {
        assert Reach(g, inodes0[f'].size - 1);
        assert ZoneOf(g, store, inodes[f'], ZoneNr(g, inodes[f'].size - 1)) != NO_ZONE;
      }
    }
  }

  // The bytes are there; the size is still to be set.
  ghost predicate Unsized(g: Geo, lim: nat, a: Image, store: Store, inodes: seq<Inode>, f: nat, pos: nat,
                          data: seq<int>, k: nat) {
    && g.Valid() && InodesOk(a.inodes) && InodesOk(inodes) && f < |a.inodes| == |inodes|
    && k <= |data| && data != [] && pos + |data| <= lim <= g.MaxZones() * g.ZoneBytes()
    && (forall f' :: 0 <= f' < |a.inodes| ==> FileOk(g, a.store, a.inodes[f'], lim))
    && OthersKept(g, a.store, a.inodes, store, inodes, f)
    && Ended(g, a.store, a.inodes[f], store, inodes[f], pos, data, k, lim)
    && Reached(g, WaysOf(g, lim), a.owner, f, pos, |data|, k)
    && (k > 0 ==> FirstZone(g, a.owner, a.store, a.inodes[f], store, inodes[f], pos))
  }

  // A write at pos spoils the file: it begins at the end, in the
  // middle of a zone that is missing, there is room for it, and the zone that
  // it will get is not blank before that place.
  ghost predicate SpoiledBy(g: Geo, lim: nat, a: Image, f: nat, pos: nat)
    requires g.Valid() && InodesOk(a.inodes) && f < |a.inodes| && pos < lim
  {
    && Fits(g, WaysOf(g, lim), a.owner, f, pos, 1)
    && GapDirty(g, a.store, a.inodes[f], NextZone(g, a.owner.Keys, ZoneHint(g, a.inodes[f])), pos)
  }

  // Not while the file ends in a zone that is there.
  lemma AnchoredNotSpoiled(g: Geo, lim: nat, a: Image, f: nat, pos: nat)
    requires g.Valid() && InodesOk(a.inodes) && f < |a.inodes| && pos < lim && Anchored(g, a.store, a.inodes[f])
    ensures !SpoiledBy(g, lim, a, f, pos)
  {
    AnchoredNoGap(g, a.store, a.inodes[f], pos);
  }

  ghost predicate AllOnZones(g: Geo, store: Store, inodes: seq<Inode>)
    requires g.Valid() && InodesOk(inodes)
  {
    forall f :: 0 <= f < |inodes| ==> Anchored(g, store, inodes[f])
  }

  // What a write of which k bytes found room has done.
  ghost predicate WriteDid(g: Geo, lim: nat, a: Image, store: Store, inodes: seq<Inode>, f: nat, pos: nat,
                           data: seq<int>, k: nat) {
    && g.Valid() && InodesOk(a.inodes) && InodesOk(inodes) && f < |a.inodes| == |inodes| && k <= |data|
    && pos + |data| <= lim
    && data != []
    && Wrote(g, a.store, a.inodes[f], store, inodes[f], pos, data, k)
    && Reached(g, WaysOf(g, lim), a.owner, f, pos, |data|, k)
    && (Contents(g, store, inodes[f]) == Spliced(Contents(g, a.store, a.inodes[f]), pos, data[..k]) <==>
          !SpoiledBy(g, lim, a, f, pos))
    && (AllOnZones(g, a.store, a.inodes) && (k > 0 || pos <= a.inodes[f].size) ==> AllOnZones(g, store, inodes))
    && forall f' :: 0 <= f' < |inodes| && f' != f ==>
         inodes[f'] == a.inodes[f'] && Contents(g, store, inodes[f']) == Contents(g, a.store, a.inodes[f'])
  }

  lemma SizeDone(g: Geo, lim: nat, a: Image, store: Store, inodes: seq<Inode>, owner: map<int, Owner>,
                 f: nat, pos: nat, data: seq<int>, k: nat)
    requires Unsized(g, lim, a, store, inodes, f, pos, data, k) && Owned(g, store, inodes, owner)
    ensures var inodes' := inodes[f := inodes[f].(size := Max(a.inodes[f].size, pos + k))];
      && InodesOk(inodes') && Owned(g, store, inodes', owner) && WriteDid(g, lim, a, store, inodes', f, pos, data, k)
      && forall f' :: 0 <= f' < |inodes'| ==> FileOk(g, store, inodes'[f'], lim)
  {
    var inodes' := inodes[f := inodes[f].(size := Max(a.inodes[f].size, pos + k))];
    assert FileOk(g, a.store, a.inodes[f], lim);
    EndWrite(g, a.store, a.inodes, store, inodes, owner, f, pos, data, k, lim);
    ReachBelow(g, lim);
    assert Reach(g, pos);
    WriteJudged(g, WaysOf(g, lim), a.owner, a.store, a.inodes[f], store, inodes[f], inodes'[f], f, pos, data, k);
    WriteSeen(g, a.store, a.inodes, store, inodes', f, lim);
    if AllOnZones(g, a.store, a.inodes) && (k > 0 || pos <= a.inodes[f].size) {
      StillAllAnchored(g, a.store, a.inodes, store, inodes', f, pos, data, k, lim);
    }
  }

  lemma BlockLength(g: Geo, store: Store, inodes: seq<Inode>, owner: map<int, Owner>, f: nat, position: nat)
    requires g.Valid() && InodesOk(inodes) && StoreOk(g, store) && Owned(g, store, inodes, owner)
    requires f < |inodes| && Reach(g, position)
    ensures |FileBlock(g, store, inodes[f], BlockNr(g, position))| == g.bs
  {
    BlockInStore(g, store, inodes, owner, f, BlockNr(g, position));
  }
}
