// Directories: slots of an inode number and a 14-byte name, in whole blocks.
// A slot with inode number 0 is free; slots past the size are not looked at.

module Directories {
  import opened Basics

  type Name = string

  datatype Slot = Slot(inum: nat, name: Name)

  datatype Flag = LOOK_UP | ENTER | DELETE

  datatype Reply = OK | ENOENT | ENOSPC

  predicate Names(s: Slot, name: Name) {
    s.inum != 0 && s.name == name
  }

  // No name is there twice.
  ghost predicate Unique(slots: seq<Slot>) {
    forall i, j :: 0 <= i < j < |slots| && slots[i].inum != 0 && slots[j].inum != 0 ==> slots[i].name != slots[j].name
  }

  // The directory as a map from names to inode numbers.
  ghost function Listing(slots: seq<Slot>): (m: map<Name, nat>)
    requires Unique(slots)
  {
    map i | 0 <= i < |slots| && slots[i].inum != 0 :: slots[i].name := slots[i].inum
  }

  lemma ListingAt(slots: seq<Slot>, i: nat)
    requires Unique(slots) && i < |slots| && slots[i].inum != 0
    ensures slots[i].name in Listing(slots) && Listing(slots)[slots[i].name] == slots[i].inum
  {}

  lemma ListedAt(slots: seq<Slot>, n: Name) returns (i: nat)
    requires Unique(slots) && n in Listing(slots)
    ensures i < |slots| && Names(slots[i], n) && Listing(slots)[n] == slots[i].inum
  {
    i :| 0 <= i < |slots| && slots[i].inum != 0 && slots[i].name == n;
  }

  // A name is listed if and only if some slot has it.
  lemma ListedIff(slots: seq<Slot>, n: Name)
    requires Unique(slots)
    ensures n in Listing(slots) <==> exists i :: 0 <= i < |slots| && Names(slots[i], n)
  {
    if n in Listing(slots) {
      var i := ListedAt(slots, n);
    } else if i :| 0 <= i < |slots| && Names(slots[i], n) {
      ListingAt(slots, i);
    }
  }

  // Listings compare slot by slot, but for one place.
  lemma ListedElsewhere(slots: seq<Slot>, slots': seq<Slot>, i: nat, n: Name)
    requires Unique(slots) && Unique(slots') && |slots| <= |slots'|
    requires i < |slots'| ==> slots'[i].name != n || slots'[i].inum == 0
    requires forall k :: 0 <= k < |slots| && k != i ==> slots'[k] == slots[k]
    requires forall k :: |slots| <= k < |slots'| && k != i ==> slots'[k].inum == 0
    requires i < |slots| ==> slots[i].name != n || slots[i].inum == 0
    ensures n in Listing(slots) <==> n in Listing(slots')
    ensures n in Listing(slots) ==> Listing(slots')[n] == Listing(slots)[n]
  {
    if n in Listing(slots) {
      var k := ListedAt(slots, n);
      ListingAt(slots', k);
    }
    if n in Listing(slots') {
      var k := ListedAt(slots', n);
      ListingAt(slots, k);
    }
  }

  ghost predicate HasFree(slots: seq<Slot>) {
    exists i :: 0 <= i < |slots| && slots[i].inum == 0
  }

  // Erasing the slot of a name removes that name.
  lemma Erased(slots: seq<Slot>, i: nat)
    requires Unique(slots) && i < |slots| && slots[i].inum != 0
    ensures var slots' := slots[i := slots[i].(inum := 0)];
      Unique(slots') && Listing(slots') == Listing(slots) - {slots[i].name}
  {
    var slots' := slots[i := slots[i].(inum := 0)];
    forall n
      ensures n in Listing(slots') <==> n in Listing(slots) - {slots[i].name}
      ensures n in Listing(slots') ==> Listing(slots')[n] == Listing(slots)[n]
    {
      ErasedAt(slots, i, n);
    }
  }

  lemma ErasedAt(slots: seq<Slot>, i: nat, n: Name)
    requires Unique(slots) && i < |slots| && slots[i].inum != 0
    ensures var slots' := slots[i := slots[i].(inum := 0)];
      && Unique(slots') && (n in Listing(slots') <==> n in Listing(slots) && n != slots[i].name)
      && (n in Listing(slots') ==> Listing(slots')[n] == Listing(slots)[n])
  {
    var slots' := slots[i := slots[i].(inum := 0)];
    if n in Listing(slots') {
      var k := ListedAt(slots', n);
      ListingAt(slots, k);
    } else if n in Listing(slots) && n != slots[i].name {
      var k := ListedAt(slots, n);
      ListingAt(slots', k);
    }
  }

  // Putting a name into a free slot, or one past the end, adds it to the
  // listing, provided it was not there.
  lemma Filled(slots: seq<Slot>, i: nat, s: Slot)
    requires Unique(slots) && i <= |slots| && (i < |slots| ==> slots[i].inum == 0) && s.inum != 0
    ensures var slots' := slots[..i] + [s] + if i < |slots| then slots[i + 1..] else [];
      && (Unique(slots') <==> s.name !in Listing(slots))
      && (s.name !in Listing(slots) ==> Listing(slots') == Listing(slots)[s.name := s.inum])
  {
    hide Listing;
    var slots' := slots[..i] + [s] + if i < |slots| then slots[i + 1..] else [];
    forall k | 0 <= k < |slots| && k != i ensures slots'[k] == slots[k] {}
    if s.name in Listing(slots) {
      var k := ListedAt(slots, s.name);
      assert slots'[k].inum != 0 && slots'[i] == s;
    } else {
      forall k | 0 <= k < |slots| && slots[k].inum != 0 ensures slots[k].name != s.name {
        ListingAt(slots, k);
      }
      assert Unique(slots');
      ListingAt(slots', i);
      forall n | n != s.name
        ensures n in Listing(slots') <==> n in Listing(slots)
        ensures n in Listing(slots') ==> Listing(slots')[n] == Listing(slots)[n]
      {
        ListedElsewhere(slots, slots', i, n);
      }
    }
  }

  class Directory {
    // Slots in a block; all slots of the blocks there are; slots in use or
    // erased, counted by the size of the file.
    const perBlock: nat
    var slots: seq<Slot>
    var size: nat
    ghost var blocks: nat

    ghost predicate Valid()
      reads this
    {
      && perBlock > 0 && |slots| == blocks * perBlock
      && size <= |slots| < size + perBlock
    }

    ghost function Live(): seq<Slot>
      requires Valid()
      reads this
    {
      slots[..size]
    }

    constructor (perBlock: nat)
      requires perBlock > 0
      ensures Valid() && this.perBlock == perBlock && Live() == []
    {
      this.perBlock := perBlock;
      slots, size, blocks := [], 0, 0;
    }

    // The search of one block, for a name or for a free slot.
    method SearchBlock(pos: nat, name: Name, flag: Flag, newSlots0: nat)
      returns (dp: nat, newSlots: nat, found: bool, eHit: bool)
      requires Valid() && pos + perBlock <= |slots| && pos <= size && newSlots0 == pos
      ensures found ==> flag != ENTER && pos <= dp < size && Names(slots[dp], name)
      ensures !found && flag != ENTER ==>
        !eHit && forall i :: pos <= i < pos + perBlock && i < size ==> !Names(slots[i], name)
      ensures eHit ==> flag == ENTER && pos <= dp < pos + perBlock && dp <= size && newSlots == dp + 1
      ensures eHit ==> (forall i :: pos <= i < dp ==> slots[i].inum != 0) && (dp == size || slots[dp].inum == 0)
      ensures flag == ENTER && !eHit ==>
        newSlots == pos + perBlock <= size && forall i :: pos <= i < pos + perBlock ==> slots[i].inum != 0
    {
      newSlots, found, eHit := newSlots0, false, false;
      dp := pos;
      while dp < pos + perBlock
        invariant pos <= dp <= pos + perBlock && dp <= size && newSlots == dp
        invariant flag != ENTER ==> forall i :: pos <= i < dp ==> !Names(slots[i], name)
        invariant flag == ENTER ==> forall i :: pos <= i < dp ==> slots[i].inum != 0
      {
        newSlots := newSlots + 1;
        if newSlots > size {
          // Room is left in the last block.
          eHit := flag == ENTER;
          return;
        }
        if flag != ENTER && slots[dp].inum != 0 && slots[dp].name == name {
          found := true;
          return;
        }
        if flag == ENTER && slots[dp].inum == 0 {
          eHit := true;
          return;
        }
        dp := dp + 1;
      }
    }

    // The search of all blocks.
    method Scan(name: Name, flag: Flag) returns (dp: nat, newSlots: nat, found: bool, eHit: bool)
      requires Valid()
      ensures found ==> flag != ENTER && dp < size && Names(slots[dp], name)
      ensures !found && flag != ENTER ==> forall i :: 0 <= i < size ==> !Names(slots[i], name)
      ensures flag == ENTER && eHit ==>
        && dp < |slots| && dp <= size && newSlots == dp + 1 && (dp == size || slots[dp].inum == 0)
        && forall i :: 0 <= i < dp ==> slots[i].inum != 0
      ensures flag == ENTER && !eHit ==> newSlots == size == |slots| && forall i :: 0 <= i < size ==> slots[i].inum != 0
    {
      dp, newSlots, found, eHit := 0, 0, false, false;
      var pos := 0;
      ghost var b := 0;
      while pos < size
        invariant pos == b * perBlock && pos <= |slots| && !eHit && !found
        invariant flag != ENTER ==> forall i :: 0 <= i < pos && i < size ==> !Names(slots[i], name)
        invariant flag == ENTER ==> newSlots == pos <= size && forall i :: 0 <= i < pos ==> slots[i].inum != 0
      {
        OneMore(b, blocks, perBlock);
        dp, newSlots, found, eHit := SearchBlock(pos, name, flag, pos);
        if found || eHit {
          return;
        }
        pos := pos + perBlock;
        b := b + 1;
      }
      if flag == ENTER && pos < |slots| {
        OneMore(b, blocks, perBlock);
      }
    }

    // search_dir(): a finite map is looked up, extended or reduced.  The first
    // erased slot is used again; the directory grows by one slot when there is
    // none.  canGrow tells whether new_block() finds room on the device.
    method SearchDir(name: Name, numb: nat, flag: Flag, canGrow: bool) returns (r: Reply, inum: nat)
      requires Valid() && Unique(Live()) && (flag == ENTER ==> numb != 0)
      modifies this
      ensures Valid()
      ensures flag == LOOK_UP ==>
        && Live() == old(Live()) && (r == OK <==> name in Listing(Live())) && r != ENOSPC
        && (r == OK ==> inum == Listing(Live())[name])
      ensures flag == DELETE ==>
        && (r == OK <==> name in old(Listing(Live()))) && r != ENOSPC && size == old(size)
        && Unique(Live()) && Listing(Live()) == old(Listing(Live())) - {name}
      ensures flag == ENTER ==> r != ENOENT && (r == ENOSPC <==> !canGrow && old(FullUp()))
      ensures flag == ENTER && r == ENOSPC ==> Live() == old(Live())
      ensures flag == ENTER && r == OK ==>
        && (Unique(Live()) <==> name !in old(Listing(Live())))
        && (name !in old(Listing(Live())) ==> Listing(Live()) == old(Listing(Live()))[name := numb])
        && size == old(size) + if old(HasFree(Live())) then 0 else 1
    {
      var dp, newSlots, found, eHit := Scan(name, flag);
      ListedIff(Live(), name);
      if found {
        assert Names(Live()[dp], name);
        ListingAt(Live(), dp);
        if flag == DELETE {
          Erase(dp);
          return OK, 0;
        }
        return OK, slots[dp].inum;
      }
      if flag != ENTER {
        return ENOENT, 0;
      }
      r := EnterName(name, numb, dp, newSlots, eHit, canGrow);
      return r, 0;
    }

    // The last part of search_dir(): the name goes into the slot found, or
    // into a new block.
    method EnterName(name: Name, numb: nat, slot: nat, count: nat, eHit: bool, canGrow: bool) returns (r: Reply)
      requires Valid() && Unique(Live()) && numb != 0
      requires eHit ==>
        && slot < |slots| && slot <= size && count == slot + 1 && (slot == size || slots[slot].inum == 0)
        && forall i :: 0 <= i < slot ==> slots[i].inum != 0
      requires !eHit ==> count == size == |slots| && forall i :: 0 <= i < size ==> slots[i].inum != 0
      modifies this
      ensures Valid()
      ensures r == OK || r == ENOSPC
      ensures r == ENOSPC <==> !canGrow && old(FullUp())
      ensures r == ENOSPC ==> Live() == old(Live())
      ensures r == OK ==>
        && (Unique(Live()) <==> name !in old(Listing(Live())))
        && (name !in old(Listing(Live())) ==> Listing(Live()) == old(Listing(Live()))[name := numb])
        && size == old(size) + if old(HasFree(Live())) then 0 else 1
    {
      var dp, newSlots := slot, count;
      if eHit && dp < size {
        assert Live()[dp].inum == 0;
      }
      if !eHit {
        newSlots := newSlots + 1;
        if !canGrow {
          return ENOSPC;
        }
        dp := Grow();
      }
      Enter(dp, newSlots, Slot(numb, name));
      return OK;
    }

    method Erase(dp: nat)
      requires Valid() && Unique(Live()) && dp < size && slots[dp].inum != 0
      modifies this
      ensures Valid() && size == old(size) && Unique(Live())
      ensures Listing(Live()) == old(Listing(Live())) - {old(slots[dp].name)}
    {
      ghost var live := Live();
      Erased(live, dp);
      slots := slots[dp := slots[dp].(inum := 0)];
      assert Live() == live[dp := live[dp].(inum := 0)];
    }

    // A new block, all zeros.
    method Grow() returns (dp: nat)
      requires Valid() && size == |slots|
      modifies this
      ensures perBlock > 0 && |slots| == blocks * perBlock && |slots| == size + perBlock
      ensures size == old(size) && dp == size && slots[..size] == old(Live())
    {
      dp := |slots|;
      assert (blocks + 1) * perBlock == blocks * perBlock + perBlock;
      slots := slots + seq(perBlock, _ => Slot(0, ""));
      blocks := blocks + 1;
    }

    // Neither a free slot nor room in the last block.
    ghost predicate FullUp()
      reads this
    {
      size == |slots| && forall i :: 0 <= i < |slots| ==> slots[i].inum != 0
    }

    // The slot found is filled, and counted if it is a new one.
    method Enter(dp: nat, newSlots: nat, s: Slot)
      requires perBlock > 0 && |slots| == blocks * perBlock && size <= |slots| < size + 1 + perBlock
      requires dp < |slots| && newSlots == dp + 1 && dp <= size && s.inum != 0 && Unique(slots[..size])
      requires dp < size ==> |slots| < size + perBlock && slots[dp].inum == 0
      modifies this
      ensures Valid() && size == if dp == old(size) then old(size) + 1 else old(size)
      ensures Unique(Live()) <==> s.name !in old(Listing(slots[..size]))
      ensures s.name !in old(Listing(slots[..size])) ==>
        Listing(Live()) == old(Listing(slots[..size]))[s.name := s.inum]
    {
      ghost var live := slots[..size];
      Filled(live, dp, s);
      slots := slots[dp := s];
      if newSlots > size {
        size := newSlots;
      }
      assert Live() == live[..dp] + [s] + if dp < |live| then live[dp + 1..] else [];
    }
  }

  lemma OneMore(b: nat, n: nat, k: nat)
    requires b * k < n * k
    ensures b < n && b * k + k <= n * k && (b + 1) * k == b * k + k
  {
    if b >= n {
      MulLe(n, b, k);
    } else {
      MulLe(b + 1, n, k);
    }
  }
}
