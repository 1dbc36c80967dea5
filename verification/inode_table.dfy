// The table of inodes in use, with reference counts.  Whoever asks for an
// inode sees its current contents, in the table or on the disk; the last user
// writes it back, or frees it when no directory entry is left.

module InodeTables {
  import opened Basics
  import opened BitMaps
  import BufferPool
  import ZoneTree

  const I_NOT_ALLOC := 0

  // What is kept on the disk.
  datatype Body = Body(mode: int, nlinks: nat, size: nat, zone: seq<int>)

  datatype Slot = Slot(dev: int, num: nat, count: nat, dirt: bool, body: Body)

  // wipe_inode()
  function Wiped(b: Body): Body {
    b.(size := 0, zone := seq(ZoneTree.NR_ZONE_NUMS, _ => 0))
  }

  lemma WipedIs(b: Body)
    ensures Wiped(b) == b.(size := 0, zone := [0, 0, 0, 0, 0, 0, 0, 0, 0])
  {}

  predicate Holds(s: Slot, n: nat) {
    s.count > 0 && s.num == n
  }

  // The first slot in use for inode n, or the length of the table.
  function Find(slots: seq<Slot>, n: nat): (i: nat)
    ensures i <= |slots|
    ensures i < |slots| ==> Holds(slots[i], n)
    ensures forall k :: 0 <= k < i ==> !Holds(slots[k], n)
  {
    if slots == [] then 0 else if Holds(slots[0], n) then 0 else 1 + Find(slots[1..], n)
  }

  // No inode is in the table twice.
  ghost predicate Once(slots: seq<Slot>) {
    forall i, j :: 0 <= i < j < |slots| && slots[i].count > 0 && slots[j].count > 0 ==> slots[i].num != slots[j].num
  }

  // The contents of inode n as anybody would find them.
  function View(slots: seq<Slot>, disk: seq<Body>, n: nat): Body
    requires n < |disk|
  {
    var i := Find(slots, n);
    if i < |slots| then slots[i].body else disk[n]
  }

  lemma ViewAt(slots: seq<Slot>, disk: seq<Body>, n: nat, i: nat)
    requires n < |disk| && Once(slots) && i < |slots| && Holds(slots[i], n)
    ensures Find(slots, n) == i && View(slots, disk, n) == slots[i].body
  {}

  // Changing one slot matters to the inodes it held and holds only.
  lemma ViewElsewhere(slots: seq<Slot>, disk: seq<Body>, slots': seq<Slot>, disk': seq<Body>, i: nat, n: nat)
    requires n < |disk| == |disk'| && Once(slots) && Once(slots') && i < |slots| == |slots'|
    requires slots' == slots[i := slots'[i]] && disk'[n] == disk[n]
    requires !Holds(slots[i], n) && !Holds(slots'[i], n)
    ensures View(slots', disk', n) == View(slots, disk, n)
  {
    var k := Find(slots, n);
    if k < |slots| {
      ViewAt(slots', disk', n, k);
    } else {
      forall j | 0 <= j < |slots'| ensures !Holds(slots'[j], n) {}
    }
  }

  ghost predicate HeldIn(slots: seq<Slot>, n: nat) {
    exists s :: 0 <= s < |slots| && Holds(slots[s], n)
  }

  // A slot that goes on holding its inode leaves everybody his.
  lemma HeldStill(slots: seq<Slot>, slots': seq<Slot>, i: nat)
    requires i < |slots| == |slots'| && slots' == slots[i := slots'[i]]
    requires slots[i].count > 0 ==> Holds(slots'[i], slots[i].num)
    ensures forall n: nat :: HeldIn(slots, n) ==> HeldIn(slots', n)
  {
    forall n: nat | HeldIn(slots, n) ensures HeldIn(slots', n) {
      var k :| 0 <= k < |slots| && Holds(slots[k], n);
      assert Holds(slots'[k], n);
    }
  }

  // Everybody sees what he saw before.
  ghost predicate SameViews(slots: seq<Slot>, disk: seq<Body>, slots': seq<Slot>, disk': seq<Body>) {
    |disk'| == |disk| && forall n: nat {:trigger View(slots', disk', n)} :: n < |disk| ==>
      View(slots', disk', n) == View(slots, disk, n)
  }

  // A slot got inode n, with its current contents.
  lemma Regained(slots: seq<Slot>, slots': seq<Slot>, disk: seq<Body>, i: nat, n: nat)
    requires n < |disk| && Once(slots) && Once(slots') && i < |slots| == |slots'| && slots' == slots[i := slots'[i]]
    requires Holds(slots'[i], n) && slots'[i].body == View(slots, disk, n) && (slots[i].count > 0 ==> slots[i].num == n)
    ensures SameViews(slots, disk, slots', disk)
  {
    forall m: nat | m < |disk| ensures View(slots', disk, m) == View(slots, disk, m) {
      if m == n {
        ViewAt(slots', disk, n, i);
      } else {
        ViewElsewhere(slots, disk, slots', disk, i, m);
      }
    }
  }

  class InodeTable {
    const dev: int
    const ninodes: nat
    const slot: array<Slot>
    const bits: BitMap
    // The inodes on the disk, from number 1 on.
    var disk: seq<Body>

    // A slot in use holds an allocated inode of the device, no other slot
    // holds it, and a clean one agrees with the disk.  An allocated inode that
    // nobody uses has a link.
    ghost predicate Valid()
      reads this, slot, bits, bits.words
    {
      ValidBut(0)
    }

    // All that, except that number b may have just been taken.
    ghost predicate ValidBut(b: nat)
      reads this, slot, bits, bits.words
    {
      && dev != BufferPool.NO_DEV && |disk| == ninodes + 1
      && bits.Valid() && ninodes + 1 <= bits.blocks * BITS_PER_BLOCK && bits.Busy(0)
      && Once(slot[..])
      && (forall s :: 0 <= s < slot.Length && slot[s].count > 0 ==> SlotOk(slot[s]))
      && (forall n :: 1 <= n <= ninodes && n != b && bits.Busy(n) && !Held(n) ==> disk[n].nlinks > 0)
    }

    ghost predicate SlotOk(s: Slot)
      requires |disk| == ninodes + 1 && bits.Valid()
      reads this, bits, bits.words
    {
      && s.dev == dev && 1 <= s.num <= ninodes && bits.Busy(s.num)
      && (!s.dirt ==> s.body == disk[s.num])
    }

    ghost predicate Held(n: nat)
      reads slot
    {
      HeldIn(slot[..], n)
    }

    ghost predicate AllInUse()
      reads slot
    {
      forall s :: 0 <= s < slot.Length ==> slot[s].count > 0
    }

    // A mounted device and an empty table.
    constructor (dev: int, ninodes: nat, slots: nat, bits: BitMap, disk: seq<Body>)
      requires dev != BufferPool.NO_DEV && |disk| == ninodes + 1
      requires bits.Valid() && ninodes + 1 <= bits.blocks * BITS_PER_BLOCK && bits.Busy(0)
      requires forall n :: 1 <= n <= ninodes && bits.Busy(n) ==> disk[n].nlinks > 0
      ensures Valid() && this.bits == bits && this.disk == disk && this.dev == dev && slot.Length == slots
      ensures forall n: nat :: n <= ninodes ==> View(slot[..], this.disk, n) == disk[n]
    {
      this.dev, this.ninodes, this.bits, this.disk := dev, ninodes, bits, disk;
      slot := new Slot[slots](_ => Slot(BufferPool.NO_DEV, 0, 0, false, Body(0, 0, 0, [])));
    }

    // The search of get_inode(): the slot that holds the inode, and the last
    // free one.
    method Search(d: int, numb: nat) returns (rip: int, xp: int)
      ensures rip != NIL ==> 0 <= rip < slot.Length && Holds(slot[rip], numb) && slot[rip].dev == d
      ensures rip == NIL ==> forall s :: 0 <= s < slot.Length && Holds(slot[s], numb) ==> slot[s].dev != d
      ensures rip == NIL ==> if xp == NIL then AllInUse() else 0 <= xp < slot.Length && slot[xp].count == 0
    {
      xp := NIL;
      rip := 0;
      while rip < slot.Length
        invariant 0 <= rip <= slot.Length
        invariant forall s :: 0 <= s < rip && Holds(slot[s], numb) ==> slot[s].dev != d
        invariant if xp == NIL then forall s :: 0 <= s < rip ==> slot[s].count > 0
                  else 0 <= xp < slot.Length && slot[xp].count == 0
      {
        if slot[rip].count > 0 {
          if slot[rip].dev == d && slot[rip].num == numb {
            return;
          }
        } else {
          xp := rip;
        }
        rip := rip + 1;
      }
      rip := NIL;
    }

    // get_inode(), of an allocated inode: one more user of its current
    // contents, unless the table is full.
    method GetInode(numb: nat) returns (r: int)
      requires Valid() && 1 <= numb <= ninodes && bits.Busy(numb)
      modifies slot
      ensures Valid() && SameViews(old(slot[..]), disk, slot[..], disk)
      ensures r == NIL <==> !old(Held(numb)) && old(AllInUse())
      ensures r == NIL ==> slot[..] == old(slot[..])
      ensures r != NIL ==>
        && 0 <= r < slot.Length && Holds(slot[r], numb) && slot[r].body == old(View(slot[..], disk, numb))
        && slot[r].count == (if old(Held(numb)) then old(slot[r].count) + 1 else 1)
        && slot[..] == old(slot[..])[r := slot[r]]
    {
      var rip, xp := Search(dev, numb);
      if rip != NIL {
        assert Holds(slot[..][rip], numb);
        ViewAt(slot[..], disk, numb, rip);
        DupInode(rip);
        return rip;
      }
      NotHeld(numb);
      if xp == NIL {
        return NIL;
      }
      Load(xp, numb);
      return xp;
    }

    // The device of a slot in use is known, so the search is for the number.
    lemma NotHeld(numb: nat)
      requires Valid() && forall s :: 0 <= s < slot.Length && Holds(slot[s], numb) ==> slot[s].dev != dev
      ensures !Held(numb)
    {
      forall k | 0 <= k < slot.Length ensures !Holds(slot[..][k], numb) {
        assert slot[k].count > 0 ==> SlotOk(slot[k]);
      }
    }

    lemma HeldBusy(n: nat)
      requires Valid() && Held(n)
      ensures bits.Busy(n)
    {
      var k :| 0 <= k < slot.Length && Holds(slot[..][k], n);
      assert SlotOk(slot[k]);
    }

    // rw_inode(READING), into a free slot
    method Load(xp: nat, numb: nat)
      requires Valid() && 1 <= numb <= ninodes && bits.Busy(numb) && !Held(numb) && xp < slot.Length
      requires slot[xp].count == 0
      modifies slot
      ensures Valid() && slot[..] == old(slot[..])[xp := Slot(dev, numb, 1, false, disk[numb])]
      ensures slot[xp].body == old(View(slot[..], disk, numb))
      ensures SameViews(old(slot[..]), disk, slot[..], disk)
    {
      ghost var was := slot[..];
      forall k | 0 <= k < |was| && was[k].count > 0 ensures was[k].num != numb {
        assert !Holds(was[k], numb);
      }
      slot[xp] := Slot(dev, numb, 1, false, disk[numb]);
      assert slot[..] == was[xp := slot[xp]];
      HeldStill(was, slot[..], xp);
      Regained(was, slot[..], disk, xp, numb);
    }

    // dup_inode()
    method DupInode(s: nat)
      requires Valid() && s < slot.Length && slot[s].count > 0
      modifies slot
      ensures Valid() && slot[..] == old(slot[..])[s := old(slot[s]).(count := old(slot[s].count) + 1)]
      ensures SameViews(old(slot[..]), old(disk), slot[..], disk)
    {
      ghost var was := slot[..];
      ViewAt(was, disk, slot[s].num, s);
      slot[s] := slot[s].(count := slot[s].count + 1);
      HeldStill(was, slot[..], s);
      Regained(was, slot[..], disk, s, slot[s].num);
    }

    // A user changes the inode: it will have to be written.
    method ChangeInode(s: nat, body: Body)
      requires Valid() && s < slot.Length && slot[s].count > 0
      modifies slot
      ensures Valid() && slot[..] == old(slot[..])[s := old(slot[s]).(body := body, dirt := true)]
      ensures forall n: nat :: n < |disk| ==>
        View(slot[..], disk, n) == if n == old(slot[s].num) then body else old(View(slot[..], disk, n))
    {
      ghost var was := slot[..];
      var n := slot[s].num;
      slot[s] := slot[s].(body := body, dirt := true);
      assert slot[..] == was[s := slot[s]];
      HeldStill(was, slot[..], s);
      ViewAt(slot[..], disk, n, s);
      forall m: nat | m < |disk| && m != n ensures View(slot[..], disk, m) == View(was, disk, m) {
        ViewElsewhere(was, disk, slot[..], disk, s, m);
      }
    }

    // rw_inode(WRITING)
    method WriteInode(s: nat)
      requires s < slot.Length && slot[s].num < |disk|
      modifies slot, this`disk
      ensures disk == old(disk)[old(slot[s].num) := old(slot[s].body)]
      ensures slot[..] == old(slot[..])[s := old(slot[s]).(dirt := false)]
    {
      disk := disk[slot[s].num := slot[s].body];
      slot[s] := slot[s].(dirt := false);
    }

    // put_inode(): one user less.  The last one frees an inode without links
    // and writes back one that has changed; else nobody sees a difference.
    // The panic in free_bit() is out of reach.
    method PutInode(s: int)
      requires Valid() && (s == NIL || (0 <= s < slot.Length && slot[s].count > 0))
      modifies slot, this`disk, bits.words, bits.dirt
      ensures Valid()
      ensures s == NIL ==> slot[..] == old(slot[..]) && disk == old(disk)
      ensures s != NIL ==>
        var was := old(slot[s]);
        var gone := was.count == 1 && was.body.nlinks == 0;
        && slot[s].count == was.count - 1 && slot[..] == old(slot[..])[s := slot[s]]
        && (forall n: nat :: bits.Busy(n) <==> old(bits.Busy(n)) && !(gone && n == was.num))
        && (forall n: nat :: n < |disk| ==>
              View(slot[..], disk, n) ==
                if gone && n == was.num
                then Body(0, 0, 0, [0, 0, 0, 0, 0, 0, 0, 0, 0]) else old(View(slot[..], disk, n)))
    {
      if s == NIL {
        return;
      }
      if slot[s].count > 1 {
        Leave(s);
      } else if slot[s].body.nlinks == 0 {
        WipedIs(slot[s].body);
        FreeInode(s);
      } else {
        LastUse(s);
      }
    }

    // Others still use the inode.
    method Leave(s: nat)
      requires Valid() && s < slot.Length && slot[s].count > 1
      modifies slot
      ensures Valid() && slot[..] == old(slot[..])[s := old(slot[s]).(count := old(slot[s].count) - 1)]
      ensures SameViews(old(slot[..]), disk, slot[..], disk)
    {
      ghost var was := slot[..];
      ViewAt(was, disk, slot[s].num, s);
      slot[s] := slot[s].(count := slot[s].count - 1);
      HeldStill(was, slot[..], s);
      Regained(was, slot[..], disk, s, slot[s].num);
    }

    // Nobody else uses it, and it stays.
    method LastUse(s: nat)
      requires Valid() && s < slot.Length && slot[s].count == 1 && slot[s].body.nlinks > 0
      modifies slot, this`disk
      ensures Valid() && slot[s].count == 0 && slot[..] == old(slot[..])[s := slot[s]]
      ensures SameViews(old(slot[..]), old(disk), slot[..], disk)
    {
      hide View, HeldIn, BitMap.Busy;
      ghost var was, wasDisk := slot[..], disk;
      var n := slot[s].num;
      ViewAt(was, disk, n, s);
      slot[s] := slot[s].(count := 0);
      if slot[s].dirt {
        WriteInode(s);
      }
      assert disk == wasDisk[n := was[s].body] && slot[..] == was[s := slot[s]];
      Released(was, wasDisk, slot[..], disk, s, was[s].body);
    }

    // Nobody uses it and nothing leads to it.
    method FreeInode(s: nat)
      requires Valid() && s < slot.Length && slot[s].count == 1 && slot[s].body.nlinks == 0
      modifies slot, this`disk, bits.words, bits.dirt
      ensures Valid() && slot[s].count == 0 && slot[..] == old(slot[..])[s := slot[s]]
      ensures forall n: nat :: bits.Busy(n) <==> old(bits.Busy(n)) && n != old(slot[s].num)
      ensures |disk| == |old(disk)|
      ensures forall n: nat :: n < |disk| ==>
        View(slot[..], disk, n) ==
          if n == old(slot[s].num) then Wiped(old(slot[s].body)).(mode := I_NOT_ALLOC) else old(View(slot[..], disk, n))
    {
      hide View, HeldIn, BitMap.Busy;
      ghost var was, wasDisk := slot[..], disk;
      var n := slot[s].num;
      // truncate() wipes it and marks it dirty.
      var body := Wiped(slot[s].body).(mode := I_NOT_ALLOC);
      slot[s] := slot[s].(count := 0, dirt := true, body := body);
      var r := bits.FreeBit(n);
      assert r == Freed;
      WriteInode(s);
      Released(was, wasDisk, slot[..], disk, s, body);
    }

    // A slot for an inode that is not on the disk yet.
    method NewSlot(b: nat, mode: int) returns (r: int)
      requires ValidBut(b) && 1 <= b <= ninodes && bits.Busy(b) && !Held(b)
      modifies slot
      ensures r == NIL <==> old(AllInUse())
      ensures r == NIL ==> slot[..] == old(slot[..])
      ensures r != NIL ==>
        && Valid() && 0 <= r < slot.Length && old(slot[r].count) == 0
        && slot[..] == old(slot[..])[r := Slot(dev, b, 1, true, Wiped(Body(mode, 0, 0, [])))]
        && forall n: nat :: n <= ninodes && n != b ==> View(slot[..], disk, n) == old(View(slot[..], disk, n))
    {
      var rip, xp := Search(BufferPool.NO_DEV, b);
      ghost var was := slot[..];
      assert rip == NIL;
      r := xp;
      if r != NIL {
        slot[r] := Slot(dev, b, 1, true, Wiped(Body(mode, 0, 0, [])));
        assert slot[..] == was[r := slot[r]];
        HeldStill(was, slot[..], r);
        assert Holds(slot[..][r], b);
        forall k | 0 <= k < |was| && was[k].count > 0 ensures was[k].num != b {
          assert !Holds(was[k], b);
        }
        forall n: nat | n <= ninodes && n != b ensures View(slot[..], disk, n) == View(was, disk, n) {
          ViewElsewhere(was, disk, slot[..], disk, r, n);
        }
      }
    }

    // alloc_inode(): a number that nobody uses, in a fresh slot; or nothing
    // changes, when there is no free number or no free slot.
    method AllocInode(mode: int) returns (r: int, numb: nat)
      requires Valid()
      modifies slot, bits.words, bits.dirt
      ensures Valid()
      ensures r == NIL <==> old(AllInUse()) || forall n :: 1 <= n <= ninodes ==> old(bits.Busy(n))
      ensures r == NIL ==> slot[..] == old(slot[..]) && forall n: nat :: bits.Busy(n) <==> old(bits.Busy(n))
      ensures r != NIL ==>
        && 0 <= r < slot.Length && old(slot[r].count) == 0 && 1 <= numb <= ninodes && !old(bits.Busy(numb))
        && slot[..] == old(slot[..])[r := Slot(dev, numb, 1, true, Body(mode, 0, 0, [0, 0, 0, 0, 0, 0, 0, 0, 0]))]
        && (forall n :: 1 <= n < numb ==> old(bits.Busy(n)))
        && (forall n: nat :: bits.Busy(n) <==> old(bits.Busy(n)) || n == numb)
        && (forall n: nat :: n <= ninodes && n != numb ==> View(slot[..], disk, n) == old(View(slot[..], disk, n)))
    {
      forall n | Held(n) ensures bits.Busy(n) {
        HeldBusy(n);
      }
      WipedIs(Body(mode, 0, 0, []));
      numb := bits.AllocBit(ninodes + 1, 0);
      if numb == NO_BIT {
        return NIL, numb;
      }
      r := NewSlot(numb, mode);
      if r == NIL {
        var freed := bits.FreeBit(numb);
      }
    }
  }

  // When the last user is gone the disk shows the inode.
  lemma Released(slots: seq<Slot>, disk: seq<Body>, slots': seq<Slot>, disk': seq<Body>, i: nat, body: Body)
    requires Once(slots) && Once(slots') && i < |slots| == |slots'| && slots' == slots[i := slots'[i]]
    requires slots[i].count > 0 && slots[i].num < |disk| == |disk'| && slots'[i].count == 0
    requires disk' == disk[slots[i].num := body]
    ensures forall n: nat :: n < |disk| ==>
      View(slots', disk', n) == if n == slots[i].num then body else View(slots, disk, n)
    ensures forall n: nat :: n != slots[i].num ==> (HeldIn(slots', n) <==> HeldIn(slots, n))
    ensures !HeldIn(slots', slots[i].num)
  {
    forall n: nat | n < |disk|
      ensures View(slots', disk', n) == if n == slots[i].num then body else View(slots, disk, n) {
      if n != slots[i].num {
        ViewElsewhere(slots, disk, slots', disk', i, n);
      }
    }
    forall n: nat | n != slots[i].num ensures HeldIn(slots', n) <==> HeldIn(slots, n) {
      if HeldIn(slots, n) {
        var k :| 0 <= k < |slots| && Holds(slots[k], n);
        assert Holds(slots'[k], n);
      }
      if HeldIn(slots', n) {
        var k :| 0 <= k < |slots'| && Holds(slots'[k], n);
        assert Holds(slots[k], n);
      }
    }
  }
}
