// A directory as a file: slots of sixteen bytes, two for the inode number and
// fourteen for the name, in the contents that read_write() sees.

module DirectoryFiles {
  import D = Directories
  import opened Blocks
  import opened ZoneTree
  import opened FileBlocks
  import opened FileBytes
  import opened FileWrites
  import opened ZoneSpace
  import opened WriteSteps
  import opened Files

  const NAME_SIZE := 14
  const DIR_ENTRY_SIZE := 16

  predicate Bytes(c: seq<int>) {
    forall j :: 0 <= j < |c| ==> 0 <= c[j] < 256
  }

  // A component, padded out to NAME_SIZE.
  predicate Padded(name: D.Name) {
    |name| == NAME_SIZE && forall i :: 0 <= i < NAME_SIZE ==> name[i] as int < 256
  }

  function NameOf(e: seq<int>): (name: D.Name)
    requires |e| == DIR_ENTRY_SIZE && Bytes(e)
    ensures Padded(name)
  {
    seq(NAME_SIZE, i requires 0 <= i < NAME_SIZE => e[i + 2] as char)
  }

  function SlotOf(e: seq<int>): D.Slot
    requires |e| == DIR_ENTRY_SIZE && Bytes(e)
  {
    D.Slot(e[0] + 256 * e[1], NameOf(e))
  }

  function Entry(inum: nat, name: D.Name): (e: seq<int>)
    requires inum < 0x10000 && Padded(name)
    ensures |e| == DIR_ENTRY_SIZE && Bytes(e)
  {
    [inum % 256, inum / 256] + seq(NAME_SIZE, i requires 0 <= i < NAME_SIZE => name[i] as int)
  }

  // The inode number comes first, low byte first, then the name.
  lemma EntryBytes(inum: nat, name: D.Name, i: nat)
    requires inum < 0x10000 && Padded(name) && i < 14
    ensures Entry(inum, name)[0] + 256 * Entry(inum, name)[1] == inum && Entry(inum, name)[2 + i] == name[i] as int
  {}

  lemma EntrySlot(inum: nat, name: D.Name)
    requires inum < 0x10000 && Padded(name)
    ensures SlotOf(Entry(inum, name)) == D.Slot(inum, name)
  {
    var e := Entry(inum, name);
    assert NameOf(e) == name by {
      forall i | 0 <= i < NAME_SIZE ensures NameOf(e)[i] == name[i] {
        assert e[i + 2] == name[i] as int;
      }
    }
  }

  // Slot k of a directory.
  function Slice16(c: seq<int>, k: nat): (e: seq<int>)
    requires (k + 1) * DIR_ENTRY_SIZE <= |c|
    ensures |e| == DIR_ENTRY_SIZE
  {
    c[k * DIR_ENTRY_SIZE..(k + 1) * DIR_ENTRY_SIZE]
  }

  function Dir(c: seq<int>): (d: seq<D.Slot>)
    requires Bytes(c)
    ensures |d| == |c| / DIR_ENTRY_SIZE
    ensures forall k :: 0 <= k < |d| ==> d[k] == SlotOf(Slice16(c, k))
  {
    seq(|c| / DIR_ENTRY_SIZE, k requires 0 <= k < |c| / DIR_ENTRY_SIZE => SlotOf(Slice16(c, k)))
  }

  // Writing an entry puts its slot into the directory, or at its end.
  lemma SpliceEntry(c: seq<int>, k: nat, e: seq<int>)
    requires Bytes(c) && |c| % DIR_ENTRY_SIZE == 0 && k <= |c| / DIR_ENTRY_SIZE && |e| == DIR_ENTRY_SIZE && Bytes(e)
    ensures var r := Spliced(c, k * DIR_ENTRY_SIZE, e);
      && Bytes(r) && |r| % DIR_ENTRY_SIZE == 0
      && Dir(r) == Dir(c)[..k] + [SlotOf(e)] + if k < |Dir(c)| then Dir(c)[k + 1..] else []
  {
    var r := Spliced(c, k * DIR_ENTRY_SIZE, e);
    SplicedSize(c, k * DIR_ENTRY_SIZE, e);
    forall j | 0 <= j < |r| ensures 0 <= r[j] < 256 {
      SplicedAt(c, k * DIR_ENTRY_SIZE, e, j);
    }
    var d := Dir(c)[..k] + [SlotOf(e)] + if k < |Dir(c)| then Dir(c)[k + 1..] else [];
    forall i | 0 <= i < |Dir(r)| ensures Dir(r)[i] == d[i] {
      SplicedSlot(c, k, e, i);
    }
  }

  lemma SplicedSlot(c: seq<int>, k: nat, e: seq<int>, i: nat)
    requires |c| % DIR_ENTRY_SIZE == 0 && k * DIR_ENTRY_SIZE <= |c| && |e| == DIR_ENTRY_SIZE
    requires (i + 1) * DIR_ENTRY_SIZE <= |Spliced(c, k * DIR_ENTRY_SIZE, e)|
    ensures Slice16(Spliced(c, k * DIR_ENTRY_SIZE, e), i) == if i == k then e else Slice16(c, i)
  {
    var r := Spliced(c, k * DIR_ENTRY_SIZE, e);
    SplicedSize(c, k * DIR_ENTRY_SIZE, e);
    forall j | 0 <= j < DIR_ENTRY_SIZE ensures Slice16(r, i)[j] == (if i == k then e else Slice16(c, i))[j] {
      SplicedAt(c, k * DIR_ENTRY_SIZE, e, i * DIR_ENTRY_SIZE + j);
    }
  }

  // Clearing the inode number erases the slot.
  lemma SpliceErase(c: seq<int>, k: nat)
    requires Bytes(c) && |c| % DIR_ENTRY_SIZE == 0 && k < |c| / DIR_ENTRY_SIZE
    ensures var r := Spliced(c, k * DIR_ENTRY_SIZE, [0, 0]);
      Bytes(r) && |r| == |c| && Dir(r) == Dir(c)[k := Dir(c)[k].(inum := 0)]
  {
    var e := [0, 0] + Slice16(c, k)[2..];
    assert Bytes(Slice16(c, k));
    SpliceEntry(c, k, e);
    var p := k * DIR_ENTRY_SIZE;
    assert Spliced(c, p, [0, 0]) == Spliced(c, p, e);
    assert NameOf(e) == NameOf(Slice16(c, k));
  }

  // ---------------------------------------------------------------------
  // An entry is in one block

  lemma EntryInBlock(k: nat, bs: nat)
    requires bs > 0 && bs % DIR_ENTRY_SIZE == 0
    ensures k * DIR_ENTRY_SIZE % bs + DIR_ENTRY_SIZE <= bs
  {
    var q := bs / DIR_ENTRY_SIZE;
    var a, b := k / q, k % q;
    assert k == a * q + b;
    assert a * q * DIR_ENTRY_SIZE == a * bs by {
      assert bs == q * DIR_ENTRY_SIZE;
    }
    DivUnique(k * DIR_ENTRY_SIZE, bs, a, b * DIR_ENTRY_SIZE);
  }

  // So all of it is written, or nothing.
  lemma AllOrNone(g: Geo, way: Ways, owner: map<int, Owner>, f: nat, pos: nat, n: nat, k: nat)
    requires n > 0 && pos + n <= |way| && OneWay(way, pos, n) && k <= n && Reached(g, way, owner, f, pos, n, k)
    ensures k == if Fits(g, way, owner, f, pos, 1) then n else 0
  {
    var p := Places(owner, f);
    TouchedMore(p, way, pos, 0, n);
    TouchedMore(p, way, pos, 0, 1);
    assert Fits(g, way, owner, f, pos, n) == Fits(g, way, owner, f, pos, 1);
  }

  lemma EntryWhole(g: Geo, lim: nat, owner: map<int, Owner>, f: nat, k: nat, n: nat, got: nat)
    requires g.Valid() && g.bs % DIR_ENTRY_SIZE == 0 && 0 < n <= DIR_ENTRY_SIZE && k * DIR_ENTRY_SIZE + n <= lim
    requires got <= n
    requires Reached(g, WaysOf(g, lim), owner, f, k * DIR_ENTRY_SIZE, n, got)
    ensures got == if Fits(g, WaysOf(g, lim), owner, f, k * DIR_ENTRY_SIZE, 1) then n else 0
  {
    EntryInBlock(k, g.bs);
    SameWay(g, WaysOf(g, lim), k * DIR_ENTRY_SIZE, n);
    AllOrNone(g, WaysOf(g, lim), owner, f, k * DIR_ENTRY_SIZE, n, got);
  }

  // ---------------------------------------------------------------------
  // The directory in file f

  ghost function Text(fs: FileSystem, f: nat): seq<int>
    requires fs.Valid() && f < fs.inode.Length
    reads fs, fs.inode, fs.vol.Repr(), fs.zmap, fs.zmap.words
  {
    Contents(fs.g, fs.vol.store, fs.inode[f])
  }

  // A directory is made of whole entries, and a block of whole ones too.
  ghost predicate IsDir(fs: FileSystem, f: nat)
    reads fs, fs.inode, fs.vol.Repr(), fs.zmap, fs.zmap.words
  {
    && fs.Valid() && fs.AllAnchored() && f < fs.inode.Length && fs.g.bs % DIR_ENTRY_SIZE == 0
    && Bytes(Text(fs, f)) && |Text(fs, f)| % DIR_ENTRY_SIZE == 0
  }

  ghost function Slots(fs: FileSystem, f: nat): seq<D.Slot>
    requires IsDir(fs, f)
    reads fs, fs.inode, fs.vol.Repr(), fs.zmap, fs.zmap.words
  {
    Dir(Text(fs, f))
  }

  // Is there a zone, or room for one, for slot k?
  ghost predicate RoomAt(fs: FileSystem, f: nat, k: nat)
    requires fs.g.Valid() && k * DIR_ENTRY_SIZE < fs.maxSize
    reads fs
  {
    Fits(fs.g, WaysOf(fs.g, fs.maxSize), fs.owner, f, k * DIR_ENTRY_SIZE, 1)
  }

  // Slot k, read from the file.
  method ReadSlot(fs: FileSystem, f: nat, k: nat) returns (s: D.Slot)
    requires IsDir(fs, f) && k < |Slots(fs, f)|
    modifies fs.vol.Repr() - {fs.vol}
    ensures IsDir(fs, f) && Text(fs, f) == old(Text(fs, f)) && s == Slots(fs, f)[k]
  {
    ghost var c := Text(fs, f);
    var e, at := fs.Read(f, k * DIR_ENTRY_SIZE, DIR_ENTRY_SIZE);
    assert e == Slice16(c, k);
    s := SlotOf(e);
  }

  // Put bytes at the beginning of slot k, all or none.
  method Put(fs: FileSystem, f: nat, k: nat, data: seq<int>) returns (r: Reply)
    requires fs.Valid() && fs.AllAnchored() && f < fs.inode.Length && fs.g.bs % DIR_ENTRY_SIZE == 0
    requires k * DIR_ENTRY_SIZE <= |Text(fs, f)| && 0 < |data| <= DIR_ENTRY_SIZE && Bytes(data)
    modifies fs`owner, fs.inode, fs.vol.Repr(), fs.zmap.words, fs.zmap.dirt
    ensures fs.Valid() && fs.AllAnchored()
    ensures r == EFBIG <==> k * DIR_ENTRY_SIZE + |data| > fs.maxSize
    ensures r == ENOSPC <==> k * DIR_ENTRY_SIZE + |data| <= fs.maxSize && !old(RoomAt(fs, f, k))
    ensures Text(fs, f) == if r == OK then Spliced(old(Text(fs, f)), k * DIR_ENTRY_SIZE, data) else old(Text(fs, f))
    ensures forall f' :: 0 <= f' < fs.inode.Length && f' != f ==> Text(fs, f') == old(Text(fs, f'))
  {
    hide Wrote, Reached, Contents, Spliced, Fits, GapDirty, SpoiledBy;
    var at: nat;
    ghost var pos, c, owner := k * DIR_ENTRY_SIZE, Text(fs, f), fs.owner;
    if pos < fs.maxSize {
      AnchoredNotSpoiled(fs.g, fs.maxSize, Image(fs.vol.store, fs.inode[..], fs.owner), f, pos);
    }
    r, at := fs.Write(f, k * DIR_ENTRY_SIZE, data);
    if r != EFBIG {
      EntryWhole(fs.g, fs.maxSize, owner, f, k, |data|, at - pos);
      SplicedNone(c, pos);
      assert data[..|data|] == data;
    }
  }

  lemma SplicedNone(c: seq<int>, pos: nat)
    requires pos <= |c|
    ensures Spliced(c, pos, []) == c
  {}

  // ---------------------------------------------------------------------
  // search_dir()

  datatype Answer = Found(inum: nat) | Changed | NoEntry | Failed(why: Reply)

  // The first free slot, or the end.
  ghost function FreeAt(d: seq<D.Slot>): (k: nat)
    ensures k <= |d| && (k < |d| ==> d[k].inum == 0) && forall i :: 0 <= i < k ==> d[i].inum != 0
  {
    if d == [] then 0 else if d[0].inum == 0 then 0 else 1 + FreeAt(d[1..])
  }

  // Stop at the name, or for ENTER at a free slot.
  predicate Stops(s: D.Slot, name: D.Name, flag: D.Flag) {
    if flag == D.ENTER then s.inum == 0 else D.Names(s, name)
  }

  method Scan(fs: FileSystem, f: nat, name: D.Name, flag: D.Flag) returns (k: nat, s: D.Slot, hit: bool)
    requires IsDir(fs, f)
    modifies fs.vol.Repr() - {fs.vol}
    ensures IsDir(fs, f) && Text(fs, f) == old(Text(fs, f))
    ensures forall f' :: 0 <= f' < fs.inode.Length ==> Text(fs, f') == old(Text(fs, f'))
    ensures k <= |Slots(fs, f)| && (hit <==> k < |Slots(fs, f)|)
    ensures hit ==> s == Slots(fs, f)[k] && Stops(s, name, flag)
    ensures forall i :: 0 <= i < k ==> !Stops(Slots(fs, f)[i], name, flag)
  {
    hide Contents, SlotOf, Stops;
    ghost var c := Text(fs, f);
    k, s, hit := 0, D.Slot(0, ""), false;
    var n := fs.inode[f].size / DIR_ENTRY_SIZE;
    while k < n
      invariant k <= n == |Dir(c)| && IsDir(fs, f) && Text(fs, f) == c
      invariant forall i :: 0 <= i < k ==> !Stops(Dir(c)[i], name, flag)
    {
      s := ReadSlot(fs, f, k);
      if Stops(s, name, flag) {
        return k, s, true;
      }
      k := k + 1;
    }
  }

  // An entry that is in use has its zone.
  lemma UsedHasZone(g: Geo, store: Store, inodes: seq<Inode>, owner: map<int, Owner>, f: nat, lim: nat, k: nat)
    requires g.Valid() && g.bs % DIR_ENTRY_SIZE == 0 && InodesOk(inodes) && Owned(g, store, inodes, owner)
    requires f < |inodes|
    requires lim <= g.MaxZones() * g.ZoneBytes() && (k + 1) * DIR_ENTRY_SIZE <= inodes[f].size <= lim
    requires Byte(g, store, inodes[f], k * DIR_ENTRY_SIZE) != 0
      || Byte(g, store, inodes[f], k * DIR_ENTRY_SIZE + 1) != 0
    ensures Fits(g, WaysOf(g, lim), owner, f, k * DIR_ENTRY_SIZE, 1)
  {
    var p, way := k * DIR_ENTRY_SIZE, WaysOf(g, lim);
    ReachBelow(g, lim);
    assert Reach(g, p);
    EntryInBlock(k, g.bs);
    InBlock(g, p, 1);
    assert ZoneOf(g, store, inodes[f], ZoneNr(g, p)) != NO_ZONE;
    MappedPath(g, store, inodes, owner, f, ZoneNr(g, p));
    RoomLeft(g, owner);
    SameWay(g, way, p, 1);
    TouchedMore(Places(owner, f), way, p, 0, 1);
    assert Touched(way, p, 0) + way[p] == way[p];
    LackingNone(Places(owner, f), way[p]);
  }

  // The name is erased.
  method Erase(fs: FileSystem, f: nat, k: nat)
    requires IsDir(fs, f) && D.Unique(Slots(fs, f)) && k < |Slots(fs, f)| && Slots(fs, f)[k].inum != 0
    modifies fs`owner, fs.inode, fs.vol.Repr(), fs.zmap.words, fs.zmap.dirt
    ensures IsDir(fs, f) && D.Unique(Slots(fs, f)) && |Slots(fs, f)| == old(|Slots(fs, f)|)
    ensures D.Listing(Slots(fs, f)) == old(D.Listing(Slots(fs, f))) - {old(Slots(fs, f)[k].name)}
    ensures forall f' :: 0 <= f' < fs.inode.Length && f' != f ==> Text(fs, f') == old(Text(fs, f'))
  {
    hide Contents, Fits, D.Unique, D.Listing, Spliced;
    ghost var c := Text(fs, f);
    assert Slots(fs, f)[k] == SlotOf(Slice16(c, k));
    UsedHasZone(fs.g, fs.vol.store, fs.inode[..], fs.owner, f, fs.maxSize, k);
    D.Erased(Dir(c), k);
    SpliceErase(c, k);
    var r := Put(fs, f, k, [0, 0]);
    assert r == OK;
  }

  // The name goes into slot k.
  method EnterAt(fs: FileSystem, f: nat, name: D.Name, numb: nat, k: nat) returns (r: Reply)
    requires IsDir(fs, f) && D.Unique(Slots(fs, f)) && Padded(name) && 0 < numb < 0x10000 && k == FreeAt(Slots(fs, f))
    modifies fs`owner, fs.inode, fs.vol.Repr(), fs.zmap.words, fs.zmap.dirt
    ensures IsDir(fs, f)
    ensures r == EFBIG <==> (k + 1) * DIR_ENTRY_SIZE > fs.maxSize
    ensures r == ENOSPC <==> (k + 1) * DIR_ENTRY_SIZE <= fs.maxSize && !old(RoomAt(fs, f, k))
    ensures r != OK ==> Text(fs, f) == old(Text(fs, f))
    ensures r == OK ==>
      && (D.Unique(Slots(fs, f)) <==> name !in old(D.Listing(Slots(fs, f))))
      && (name !in old(D.Listing(Slots(fs, f))) ==>
            D.Listing(Slots(fs, f)) == old(D.Listing(Slots(fs, f)))[name := numb])
      && |Slots(fs, f)| == old(|Slots(fs, f)|) + if old(D.HasFree(Slots(fs, f))) then 0 else 1
    ensures forall f' :: 0 <= f' < fs.inode.Length && f' != f ==> Text(fs, f') == old(Text(fs, f'))
  {
    hide Contents, Fits, D.Unique, D.Listing, Spliced, Entry, SlotOf, FreeAt;
    ghost var c := Text(fs, f);
    D.Filled(Dir(c), k, D.Slot(numb, name));
    EntrySlot(numb, name);
    SpliceEntry(c, k, Entry(numb, name));
    r := Put(fs, f, k, Entry(numb, name));
  }

  // search_dir(), of a directory that is a file: it is a finite map from names
  // to inode numbers, whatever else the device holds.
  method SearchDir(fs: FileSystem, f: nat, name: D.Name, numb: nat, flag: D.Flag) returns (a: Answer)
    requires IsDir(fs, f) && D.Unique(Slots(fs, f)) && Padded(name) && numb < 0x10000 && (flag == D.ENTER ==> numb != 0)
    modifies fs`owner, fs.inode, fs.vol.Repr(), fs.zmap.words, fs.zmap.dirt
    ensures IsDir(fs, f)
    ensures flag == D.LOOK_UP ==>
      && Text(fs, f) == old(Text(fs, f))
      && a == if name in D.Listing(Slots(fs, f)) then Found(D.Listing(Slots(fs, f))[name]) else NoEntry
    ensures flag == D.DELETE ==>
      && a == (if name in old(D.Listing(Slots(fs, f))) then Changed else NoEntry)
      && D.Unique(Slots(fs, f)) && D.Listing(Slots(fs, f)) == old(D.Listing(Slots(fs, f))) - {name}
    ensures flag == D.ENTER ==>
      var k := FreeAt(old(Slots(fs, f)));
      a == if (k + 1) * DIR_ENTRY_SIZE > fs.maxSize then Failed(EFBIG)
           else if !old(RoomAt(fs, f, k)) then Failed(ENOSPC) else Changed
    ensures flag == D.ENTER && a != Changed ==> Text(fs, f) == old(Text(fs, f))
    ensures flag == D.ENTER && a == Changed ==>
      && (D.Unique(Slots(fs, f)) <==> name !in old(D.Listing(Slots(fs, f))))
      && (name !in old(D.Listing(Slots(fs, f))) ==>
            D.Listing(Slots(fs, f)) == old(D.Listing(Slots(fs, f)))[name := numb])
      && |Slots(fs, f)| == old(|Slots(fs, f)|) + if old(D.HasFree(Slots(fs, f))) then 0 else 1
    ensures forall f' :: 0 <= f' < fs.inode.Length && f' != f ==> Text(fs, f') == old(Text(fs, f'))
  {
    hide Text, IsDir, RoomAt, D.Unique, D.Listing;
    var k, s, hit := Scan(fs, f, name, flag);
    if flag == D.ENTER {
      var r := EnterAt(fs, f, name, numb, k);
      return if r == OK then Changed else Failed(r);
    }
    D.ListedIff(Slots(fs, f), name);
    if !hit {
      return NoEntry;
    }
    D.ListingAt(Slots(fs, f), k);
    if flag == D.DELETE {
      Erase(fs, f, k);
      return Changed;
    }
    return Found(s.inum);
  }
}
