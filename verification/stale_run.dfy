// A run of the file system that ends with a file showing what another file had
// in its zone: a write that finds no room sets the size all the same, and the
// next write at that size gets a zone that nobody clears.

module StaleRun {
  import opened BitMaps
  import opened BufferPool
  import opened Blocks
  import opened Volumes
  import opened ZoneTree
  import opened FileBlocks
  import opened FileBytes
  import opened FileWrites
  import opened ZoneSpace
  import opened WriteSteps
  import opened Files

  // Blocks of two bytes, two blocks a zone, one zone.
  const SMALL := Geo(2, 2, 1, 2)
  const LIMIT := 8
  const BLANK: Disk := map[Key(1, 0) := [0, 0], Key(1, 1) := [0, 0], Key(1, 2) := [0, 0], Key(1, 3) := [0, 0]]

  // Any part of the first zone of a file takes that zone.
  lemma FirstZoneFits(owner: map<int, Owner>, f: nat, pos: nat, n: nat)
    requires 0 < n && pos + n <= 4 && Room(SMALL, owner) >= 0
    ensures Fits(SMALL, WaysOf(SMALL, LIMIT), owner, f, pos, n) <==>
      Data(0) in Places(owner, f) || Room(SMALL, owner) >= 1
  {
    var way := WaysOf(SMALL, LIMIT);
    forall j | pos <= j < pos + n ensures way[j] == [Data(0)] {
      assert Path(SMALL, ZoneNr(SMALL, j)) == [Data(0)];
    }
    TouchedMore(Places(owner, f), way, pos, 0, n);
    assert Touched(way, pos, 0) + way[pos] == [Data(0)];
  }

  // When file 0 is four sevens, it has the one zone, and no zone is left.
  lemma Sevens(store: Store, inodes: seq<Inode>, owner: map<int, Owner>)
    requires StoreOk(SMALL, store) && InodesOk(inodes) && Owned(SMALL, store, inodes, owner) && |inodes| == 2
    requires Contents(SMALL, store, inodes[0]) == [7, 7, 7, 7]
    ensures owner == map[1 := Owner(0, Data(0))] && Room(SMALL, owner) == 0 && Places(owner, 1) == {}
    ensures |store| > 2 && store[2] == [7, 7]
  {
    assert Byte(SMALL, store, inodes[0], 0) == 7 && Byte(SMALL, store, inodes[0], 1) == 7;
    var z := ZoneAt(SMALL, store, inodes[0], Data(0));
    assert z != NO_ZONE;
    assert z in owner && owner[z] == Owner(0, Data(0));
    assert forall w :: w in owner ==> w == 1;
    assert owner.Keys == {1};
    assert BlockAt(SMALL, store, inodes[0], 0) == 2;
  }

  // A file of size 2 without a zone gets the zone of the sevens.
  lemma SevensShow(store0: Store, ino0: Inode, store: Store, inodes: seq<Inode>, owner: map<int, Owner>)
    requires |store0| > 2 && store0[2] == [7, 7] && |ino0.zone| == NR_ZONE_NUMS && ino0.size == 2
    requires ino0.zone[0] == NO_ZONE
    requires InodesOk(inodes) && Owned(SMALL, store, inodes, owner) && |inodes| == 2
    requires Wrote(SMALL, store0, ino0, store, inodes[1], 2, [5, 5], 2)
    ensures Contents(SMALL, store, inodes[1]) == [7, 7, 5, 5]
  {
    var ino := inodes[1];
    assert ZoneAt(SMALL, store, ino, Data(0)) == 1;
    assert InGap(SMALL, store0, ino0, 2, 0);
    assert FileBlock(SMALL, store, ino, 0) == [7, 7];
    assert Byte(SMALL, store, ino, 0) == 7 && Byte(SMALL, store, ino, 1) == 7;
    assert Byte(SMALL, store, ino, 2) == 5 && Byte(SMALL, store, ino, 3) == 5;
  }

  // Two files on such a device.
  ghost predicate Ready(fs: FileSystem)
    reads fs, fs.inode, fs.vol.Repr(), fs.zmap, fs.zmap.words
  {
    fs.Valid() && fs.g == SMALL && fs.maxSize == LIMIT && fs.inode.Length == 2
  }

  ghost function File(fs: FileSystem, f: nat): seq<int>
    requires Ready(fs) && f < 2
    reads fs, fs.inode, fs.vol.Repr(), fs.zmap, fs.zmap.words
  {
    Contents(SMALL, fs.vol.store, fs.inode[f])
  }

  // File 0 gets the zone.
  method Fill(fs: FileSystem)
    requires Ready(fs) && fs.owner == map[] && File(fs, 0) == File(fs, 1) == []
    modifies fs`owner, fs.inode, fs.vol.Repr(), fs.zmap.words, fs.zmap.dirt
    ensures Ready(fs) && File(fs, 0) == [7, 7, 7, 7] && File(fs, 1) == []
  {
    FirstZoneFits(fs.owner, 0, 0, 4);
    var r, newPosition := fs.Write(0, 0, [7, 7, 7, 7]);
    assert newPosition == 4;
  }

  // A write past the end of file 1 finds no zone, and leaves a hole.
  method Fail(fs: FileSystem)
    requires Ready(fs) && File(fs, 0) == [7, 7, 7, 7] && File(fs, 1) == []
    modifies fs`owner, fs.inode, fs.vol.Repr(), fs.zmap.words, fs.zmap.dirt
    ensures Ready(fs) && File(fs, 0) == [7, 7, 7, 7] && File(fs, 1) == [0, 0]
  {
    Sevens(fs.vol.store, fs.inode[..], fs.owner);
    FirstZoneFits(fs.owner, 1, 2, 1);
    var r, newPosition := fs.Write(1, 2, [5, 5]);
    assert r == ENOSPC && newPosition == 2;
  }

  // File 0 gives the zone back, as it is.
  method Free(fs: FileSystem)
    requires Ready(fs) && File(fs, 0) == [7, 7, 7, 7] && File(fs, 1) == [0, 0]
    modifies fs`owner, fs.inode, fs.vol.Repr() - {fs.vol}, fs.zmap.words, fs.zmap.dirt
    ensures Ready(fs) && fs.owner == map[] && File(fs, 1) == [0, 0] && |fs.vol.store| > 2 && fs.vol.store[2] == [7, 7]
  {
    Sevens(fs.vol.store, fs.inode[..], fs.owner);
    fs.Truncate(0);
    assert fs.owner == map[];
  }

  // File 1 is written where it ends.
  method Show(fs: FileSystem)
    requires Ready(fs) && fs.owner == map[] && File(fs, 1) == [0, 0] && |fs.vol.store| > 2 && fs.vol.store[2] == [7, 7]
    modifies fs`owner, fs.inode, fs.vol.Repr(), fs.zmap.words, fs.zmap.dirt
    ensures Ready(fs) && File(fs, 1) == [7, 7, 5, 5]
  {
    ghost var store, ino := fs.vol.store, fs.inode[1];
    assert ZoneAt(SMALL, store, fs.inode[..][1], Data(0)) == NO_ZONE;
    FirstZoneFits(fs.owner, 1, 2, 2);
    var r, newPosition := fs.Write(1, 2, [5, 5]);
    assert newPosition == 4;
    SevensShow(store, ino, fs.vol.store, fs.inode[..], fs.owner);
  }

  lemma BlankStore(store: Store)
    requires store == seq(4, b requires 0 <= b < 4 => DiskAt(BLANK, Key(1, b)))
    ensures StoreOk(SMALL, store)
  {}

  method Make() returns (fs: FileSystem)
    ensures Ready(fs) && fs.owner == map[] && File(fs, 0) == File(fs, 1) == []
    ensures fresh({fs, fs.inode, fs.zmap, fs.zmap.words, fs.zmap.dirt} + fs.vol.Repr())
  {
    hide Contents, DiskAt, StoreOk, Owned, BitMap.Busy;
    var vol := new Volume(1, BLANK, 4, 1, 1);
    BlankStore(vol.store);
    var zmap := new BitMap(1);
    fs := new FileSystem(SMALL, LIMIT, vol, zmap, 2);
    assert fs.inode[0] == fs.inode[1] == fs.inode[..][0];
  }

  // What reading file 1 shows.
  method Look(fs: FileSystem) returns (data: seq<int>)
    requires Ready(fs) && |File(fs, 1)| <= 4
    modifies fs.vol.Repr() - {fs.vol}
    ensures Ready(fs) && data == File(fs, 1) && File(fs, 0) == old(File(fs, 0)) && File(fs, 1) == old(File(fs, 1))
  {
    var at: nat;
    data, at := fs.Read(1, 0, 4);
  }

  method Run() returns (fs: FileSystem, before: seq<int>, after: seq<int>)
    ensures Ready(fs) && fresh(fs) && File(fs, 1) == after == [7, 7, 5, 5]
    ensures before == [0, 0] && after != Spliced(before, 2, [5, 5])
  {
    hide Ready, File;
    fs := Make();
    Fill(fs);
    Fail(fs);
    before := Look(fs);
    Free(fs);
    Show(fs);
    after := Look(fs);
    SplicedAt(before, 2, [5, 5], 0);
  }
}
