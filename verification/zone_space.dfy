// Room on a device: which zone the bit map yields next, what zones a write
// needs, and whether there are enough.

module ZoneSpace {
  import opened Blocks
  import opened BitMaps
  import opened ZoneTree
  import opened FileBytes

  // ---------------------------------------------------------------------
  // The next zone

  // The first zone from lo on that is not in use, or hi.
  ghost function FreeFrom(busy: set<int>, lo: int, hi: int): (z: int)
    ensures lo <= hi ==> lo <= z <= hi
    ensures z < hi ==> z !in busy
    ensures forall w :: lo <= w < z && w < hi ==> w in busy
    decreases hi - lo
  {
    if lo >= hi then hi else if lo !in busy then lo else FreeFrom(busy, lo + 1, hi)
  }

  // Where the search for a zone near the given one begins: at its word of the
  // bit map, or at the start when it has none.
  function SearchStart(g: Geo, hint: int): (s: int)
    requires g.Valid()
    ensures g.first - 1 <= s < g.nzones
  {
    var bit := (hint - (g.first - 1)) % 0x10000;
    g.first - 1 + WordStart(if bit >= g.nzones - g.first + 1 then 0 else bit)
  }

  // The zone that alloc_zone() returns: the first free one from there on, with
  // wraparound, or NO_ZONE.
  ghost function NextZone(g: Geo, busy: set<int>, hint: int): (z: int)
    requires g.Valid()
    ensures z == NO_ZONE <==> forall w :: g.first <= w < g.nzones ==> w in busy
    ensures z != NO_ZONE ==> g.first <= z < g.nzones && z !in busy
  {
    var s := SearchStart(g, hint);
    var z := FreeFrom(busy, if s < g.first then g.first else s, g.nzones);
    var y := FreeFrom(busy, g.first, g.nzones);
    if z < g.nzones then z else if y < g.nzones then y else NO_ZONE
  }

  // There is only one such zone.
  lemma NextZoneIs(g: Geo, busy: set<int>, hint: int, z: int)
    requires g.Valid() && g.first <= z < g.nzones && z !in busy
    requires var s := SearchStart(g, hint);
      if s <= z then forall w :: s <= w < z && g.first <= w ==> w in busy
      else (forall w :: s <= w < g.nzones && g.first <= w ==> w in busy) && forall w :: g.first <= w < z ==> w in busy
    ensures NextZone(g, busy, hint) == z
  {}

  // ---------------------------------------------------------------------
  // The zones a write needs

  // The places that must have zones for relative zone zi to be there.
  function Path(g: Geo, zi: nat): (p: seq<Slot>)
    requires g.Valid()
  {
    if zi < NR_DZONE_NUM then [Data(zi)]
    else if zi < NR_DZONE_NUM + g.Inds() then [Single, Data(zi)]
    else [Double, HolderSlot(g, zi), Data(zi)]
  }

  // For each byte of a file, the places on the way to its zone.
  type Ways = seq<seq<Slot>>

  function WaysOf(g: Geo, lim: nat): (way: Ways)
    requires g.Valid()
    ensures WaysAre(g, way, lim)
  {
    seq(lim, j requires 0 <= j < lim => Path(g, ZoneNr(g, j)))
  }

  predicate WaysAre(g: Geo, way: Ways, lim: nat)
    requires g.Valid()
  {
    |way| == lim && forall j {:trigger Path(g, ZoneNr(g, j))} :: 0 <= j < lim ==> way[j] == Path(g, ZoneNr(g, j))
  }

  // The bytes of one block are in one zone.
  lemma SameWay(g: Geo, way: Ways, p: nat, m: nat)
    requires g.Valid() && p + m <= |way| && 0 < m && p % g.bs + m <= g.bs && WaysAre(g, way, |way|)
    ensures way[p] == Path(g, ZoneNr(g, p))
    ensures OneWay(way, p, m)
  {
    forall j | p <= j < p + m ensures way[j] == way[p] {
      InBlock(g, p, j - p);
      assert Path(g, ZoneNr(g, j)) == Path(g, ZoneNr(g, p));
    }
  }

  predicate OneWay(way: Ways, p: nat, m: nat)
    requires 0 < m && p + m <= |way|
  {
    forall j :: p <= j < p + m ==> way[j] == way[p]
  }

  // The places on the way to n bytes from pos on.
  function Touched(way: Ways, pos: nat, n: nat): seq<Slot>
    requires pos + n <= |way|
  {
    if n == 0 then [] else Touched(way, pos, n - 1) + way[pos + n - 1]
  }

  // How many of these places are missing in p, each counted once.
  function Lacking(p: set<Slot>, q: seq<Slot>): nat {
    if q == [] then 0
    else
      var rest, last := q[..|q| - 1], q[|q| - 1];
      Lacking(p, rest) + if last in p || last in rest then 0 else 1
  }

  lemma {:induction false} LackingAppend(p: set<Slot>, a: seq<Slot>, b: seq<Slot>, p': set<Slot>)
    requires forall sl :: sl in p' <==> sl in p || sl in a
    ensures Lacking(p, a + b) == Lacking(p, a) + Lacking(p', b)
    decreases |b|
  {
    if b == [] {
      assert a + b == a;
    } else {
      var c := b[..|b| - 1];
      LackingAppend(p, a, c, p');
      assert (a + b)[..|a + b| - 1] == a + c && (a + b)[|a + b| - 1] == b[|b| - 1];
    }
  }

  lemma {:induction false} LackingNone(p: set<Slot>, q: seq<Slot>)
    requires forall sl :: sl in q ==> sl in p
    ensures Lacking(p, q) == 0
    decreases |q|
  {
    if q != [] {
      LackingNone(p, q[..|q| - 1]);
    }
  }

  // Going over the same places again finds nothing new.
  lemma LackingTwice(p: set<Slot>, a: seq<Slot>, b: seq<Slot>)
    requires forall sl :: sl in b ==> sl in a
    ensures Lacking(p, a + b) == Lacking(p, a)
  {
    var p' := p + set sl | sl in a;
    LackingAppend(p, a, b, p');
    LackingNone(p', b);
  }

  lemma {:induction false} LackingIs(p: set<Slot>, q: seq<Slot>)
    ensures Lacking(p, q) == |(set sl | sl in q) - p|
    decreases |q|
  {
    var s := (set sl | sl in q) - p;
    if q == [] {
      assert s == {};
    } else {
      var rest, last := q[..|q| - 1], q[|q| - 1];
      assert q == rest + [last];
      LackingIs(p, rest);
      var t := (set sl | sl in rest) - p;
      if last in p || last in rest {
        assert s == t;
      } else {
        assert s == t + {last};
      }
    }
  }

  // The places of file f that have zones.
  ghost function Places(owner: map<int, Owner>, f: nat): set<Slot> {
    set z | z in owner && owner[z].file == f :: owner[z].slot
  }

  // They are those with an entry in its tree.
  lemma PlacesAre(g: Geo, store: Store, inodes: seq<Inode>, owner: map<int, Owner>, f: nat, sl: Slot)
    requires g.Valid() && InodesOk(inodes) && Owned(g, store, inodes, owner) && f < |inodes|
    ensures sl in Places(owner, f) <==> SlotOk(g, sl) && ZoneAt(g, store, inodes[f], sl) != NO_ZONE
  {
    if sl in Places(owner, f) {
      var z :| z in owner && owner[z].file == f && owner[z].slot == sl;
      assert ZoneAt(g, store, inodes[owner[z].file], owner[z].slot) == z;
    }
    if SlotOk(g, sl) && ZoneAt(g, store, inodes[f], sl) != NO_ZONE {
      InPlaces(owner, f, ZoneAt(g, store, inodes[f], sl));
    }
  }

  lemma InPlaces(owner: map<int, Owner>, f: nat, z: int)
    requires z in owner && owner[z].file == f
    ensures owner[z].slot in Places(owner, f)
  {}

  // A zone that is mapped has its indirect zones too.
  lemma MappedPath(g: Geo, store: Store, inodes: seq<Inode>, owner: map<int, Owner>, f: nat, zi: nat)
    requires g.Valid() && InodesOk(inodes) && Owned(g, store, inodes, owner) && f < |inodes| && zi < g.MaxZones()
    ensures ZoneOf(g, store, inodes[f], zi) != NO_ZONE ==> forall sl :: sl in Path(g, zi) ==> sl in Places(owner, f)
    ensures ZoneOf(g, store, inodes[f], zi) == NO_ZONE ==> Data(zi) !in Places(owner, f)
  {
    PlacesAre(g, store, inodes, owner, f, Data(zi));
    if ZoneOf(g, store, inodes[f], zi) != NO_ZONE && zi >= NR_DZONE_NUM {
      HolderZone(g, store, inodes[f], zi);
      PlacesAre(g, store, inodes, owner, f, Single);
      PlacesAre(g, store, inodes, owner, f, Double);
      PlacesAre(g, store, inodes, owner, f, HolderSlot(g, zi));
    }
  }

  // Zones not in use.
  ghost function Room(g: Geo, owner: map<int, Owner>): int {
    g.nzones - g.first - |owner|
  }

  // Which zone new_block() asks for.
  function ZoneHint(g: Geo, ino: Inode): int
    requires |ino.zone| == NR_ZONE_NUMS
  {
    if ino.size == 0 then g.first else ino.zone[0]
  }

  // A new zone is near the first one of its file: the first free zone from the
  // word of the bit map on that has the bit of that one, if there is one there.
  // A file without a first zone, or without contents, gets the first free zone
  // of all, and so does one behind whose first zone all are in use.
  lemma NewZoneNear(g: Geo, busy: set<int>, ino: Inode)
    requires g.Valid() && |ino.zone| == NR_ZONE_NUMS
    requires ino.zone[0] == NO_ZONE || g.first <= ino.zone[0] < g.nzones
    ensures var z := NextZone(g, busy, ZoneHint(g, ino));
      var near := ino.zone[0] - (ino.zone[0] - (g.first - 1)) % 16;
      && (z == NO_ZONE <==> forall w :: g.first <= w < g.nzones ==> w in busy)
      && (z != NO_ZONE ==>
            if ino.size > 0 && ino.zone[0] != NO_ZONE && exists w :: near <= w < g.nzones && g.first <= w && w !in busy
            then near <= z && forall w :: near <= w < z && g.first <= w ==> w in busy
            else forall w :: g.first <= w < z ==> w in busy)
  {
    var zone0 := ino.zone[0];
    var hint := ZoneHint(g, ino);
    if ino.size > 0 && zone0 != NO_ZONE {
      assert (hint - (g.first - 1)) % 0x10000 == zone0 - (g.first - 1);
      assert SearchStart(g, hint) == zone0 - (zone0 - (g.first - 1)) % 16;
    } else {
      assert SearchStart(g, hint) == g.first - 1;
    }
  }

  // The places are taken by zones of file f, or there is room for those missing.
  ghost predicate HasRoom(g: Geo, owner: map<int, Owner>, f: nat, path: seq<Slot>) {
    Lacking(Places(owner, f), path) <= Room(g, owner)
  }

  // Write n bytes at pos: do the zones that takes exist, or find room?
  ghost predicate Fits(g: Geo, way: Ways, owner: map<int, Owner>, f: nat, pos: nat, n: nat)
    requires pos + n <= |way|
  {
    HasRoom(g, owner, f, Touched(way, pos, n))
  }

  lemma {:induction false} RangeSize(lo: int, hi: int, s: set<int>)
    requires lo <= hi && forall z :: z in s ==> lo <= z < hi
    ensures |s| <= hi - lo
    ensures |s| == hi - lo <==> forall z :: lo <= z < hi ==> z in s
    decreases hi - lo
  {
    if lo == hi {
      assert forall z :: z in s ==> z in {};
      assert s <= {};
    } else {
      var t := s - {hi - 1};
      RangeSize(lo, hi - 1, t);
      if hi - 1 in s {
        assert s == t + {hi - 1};
      } else {
        assert s == t;
      }
    }
  }

  // Every zone is in use exactly when there is no room.
  lemma RoomLeft(g: Geo, owner: map<int, Owner>)
    requires g.Valid() && forall z :: z in owner ==> g.first <= z < g.nzones
    ensures Room(g, owner) >= 0
    ensures Room(g, owner) == 0 <==> forall z :: g.first <= z < g.nzones ==> z in owner
  {
    assert |owner.Keys| == |owner|;
    RangeSize(g.first, g.nzones, owner.Keys);
  }

  // The same when one more zone is set aside.
  lemma RoomPending(g: Geo, owner: map<int, Owner>, z: int)
    requires g.Valid() && (forall w :: w in owner ==> g.first <= w < g.nzones) && z !in owner && g.first <= z < g.nzones
    ensures Room(g, owner) >= 1
    ensures Room(g, owner) == 1 <==> forall w :: g.first <= w < g.nzones ==> w in owner.Keys + {z}
  {
    assert |owner.Keys| == |owner|;
    assert |owner.Keys + {z}| == |owner| + 1;
    RangeSize(g.first, g.nzones, owner.Keys + {z});
  }

  // ---------------------------------------------------------------------
  // Taking zones

  // File f got zones for those of the places added that had none.
  ghost predicate Took(g: Geo, owner: map<int, Owner>, owner': map<int, Owner>, f: nat, added: seq<Slot>) {
    && (forall sl :: sl in Places(owner', f) <==> sl in Places(owner, f) || sl in added)
    && Room(g, owner') == Room(g, owner) - Lacking(Places(owner, f), added)
  }

  lemma TookNone(g: Geo, owner: map<int, Owner>, f: nat, added: seq<Slot>)
    requires forall sl :: sl in added ==> sl in Places(owner, f)
    ensures Took(g, owner, owner, f, added)
  {
    LackingNone(Places(owner, f), added);
  }

  lemma TookTrans(g: Geo, o: map<int, Owner>, o1: map<int, Owner>, o2: map<int, Owner>, f: nat, a: seq<Slot>,
                  b: seq<Slot>)
    requires Took(g, o, o1, f, a) && Took(g, o1, o2, f, b)
    ensures Took(g, o, o2, f, a + b)
  {
    LackingAppend(Places(o, f), a, b, Places(o1, f));
  }

  // The zones taken so far were to be had.
  ghost predicate Spent(g: Geo, owner0: map<int, Owner>, owner: map<int, Owner>, f: nat, taken: seq<Slot>) {
    Room(g, owner) >= 0 && Took(g, owner0, owner, f, taken)
  }

  lemma SpentMore(g: Geo, owner0: map<int, Owner>, owner: map<int, Owner>, owner': map<int, Owner>,
                  f: nat, taken: seq<Slot>, path: seq<Slot>)
    requires Spent(g, owner0, owner, f, taken) && Took(g, owner, owner', f, path) && Room(g, owner') >= 0
    ensures Spent(g, owner0, owner', f, taken + path)
  {
    TookTrans(g, owner0, owner, owner', f, taken, path);
  }

  // When there is no room for more now, there was none for all of it.
  lemma NoRoom(g: Geo, owner0: map<int, Owner>, owner: map<int, Owner>, f: nat, taken: seq<Slot>, path: seq<Slot>)
    requires Spent(g, owner0, owner, f, taken) && !HasRoom(g, owner, f, path)
    ensures !HasRoom(g, owner0, f, taken + path)
  {
    LackingAppend(Places(owner0, f), taken, path, Places(owner, f));
  }

  // When a zone cannot be mapped for lack of room, a new double indirect zone
  // is all that can be left in the tree.
  ghost function Leftover(g: Geo, owner: map<int, Owner>, f: nat, path: seq<Slot>): seq<Slot> {
    if Double in path && Double !in Places(owner, f) && Room(g, owner) == 2 then [Double] else []
  }

  // ---------------------------------------------------------------------
  // What new_block() takes

  // File f got zones for some of the places, and only for those.
  ghost predicate Grown(owner: map<int, Owner>, owner': map<int, Owner>, f: nat, path: seq<Slot>) {
    && (forall w :: w in owner ==> w in owner' && owner'[w] == owner[w])
    && (forall w :: w in owner' && w !in owner ==> owner'[w].file == f && owner'[w].slot in path)
  }

  lemma GrownNone(owner: map<int, Owner>, f: nat, path: seq<Slot>)
    ensures Grown(owner, owner, f, path)
  {}

  lemma GrownOne(owner: map<int, Owner>, f: nat, path: seq<Slot>, sl: Slot, w: int)
    requires w !in owner && sl in path
    ensures Grown(owner, owner[w := Owner(f, sl)], f, path)
  {}

  lemma GrownTrans(o: map<int, Owner>, o1: map<int, Owner>, o2: map<int, Owner>, f: nat, path: seq<Slot>)
    requires Grown(o, o1, f, path) && Grown(o1, o2, f, path)
    ensures Grown(o, o2, f, path)
  {}

  // The places on the way to relative zone zi are among these.
  predicate Covers(g: Geo, zi: nat, path: seq<Slot>)
    requires g.Valid()
  {
    && Data(zi) in path && (zi >= NR_DZONE_NUM ==> HolderSlot(g, zi) in path)
    && (zi >= NR_DZONE_NUM + g.Inds() ==> Double in path)
  }

  lemma PathCovers(g: Geo, zi: nat)
    requires g.Valid()
    ensures Covers(g, zi, Path(g, zi))
    ensures zi >= NR_DZONE_NUM ==>
              forall sl :: sl in Path(g, zi) ==> sl == Data(zi) || sl == HolderSlot(g, zi) || sl == Double
  {}

  // No two zones have the same place.
  ghost predicate Distinct(owner: map<int, Owner>) {
    forall a, b :: a in owner && b in owner && owner[a] == owner[b] ==> a == b
  }

  lemma OwnedDistinct(g: Geo, store: Store, inodes: seq<Inode>, owner: map<int, Owner>)
    requires g.Valid() && InodesOk(inodes) && Owned(g, store, inodes, owner)
    ensures Distinct(owner)
  {
    forall a, b | a in owner && b in owner && owner[a] == owner[b] ensures a == b {
      assert ZoneAt(g, store, inodes[owner[a].file], owner[a].slot) == a;
      assert ZoneAt(g, store, inodes[owner[b].file], owner[b].slot) == b;
    }
  }

  // The places of some zones.
  ghost function PlacesOf(owner: map<int, Owner>, zones: set<int>): set<Slot>
    requires zones <= owner.Keys
  {
    set z | z in zones :: owner[z].slot
  }

  lemma SomeMember<T>(s: set<T>) returns (x: T)
    requires s != {}
    ensures x in s
  {
    x :| x in s;
  }

  lemma {:induction false} AsManyPlaces(owner: map<int, Owner>, zones: set<int>, f: nat)
    requires Distinct(owner) && zones <= owner.Keys && forall z :: z in zones ==> owner[z].file == f
    ensures |PlacesOf(owner, zones)| == |zones|
    decreases |zones|
  {
    if |zones| > 0 {
      var z := SomeMember(zones);
      var rest := zones - {z};
      AsManyPlaces(owner, rest, f);
      forall y | y in rest ensures owner[y].slot != owner[z].slot {
        assert owner[y] != owner[z];
      }
      assert PlacesOf(owner, zones) == PlacesOf(owner, rest) + {owner[z].slot};
    } else {
      assert PlacesOf(owner, zones) == {};
    }
  }

  // New zones have new places.
  lemma GrownPlaces(owner: map<int, Owner>, owner': map<int, Owner>, f: nat, path: seq<Slot>)
    requires Grown(owner, owner', f, path) && Distinct(owner')
    ensures Places(owner', f) - Places(owner, f) == PlacesOf(owner', owner'.Keys - owner.Keys)
    ensures Places(owner, f) <= Places(owner', f)
    ensures forall sl :: sl in Places(owner', f) - Places(owner, f) ==> sl in path
  {
    var zones := owner'.Keys - owner.Keys;
    forall sl | sl in Places(owner, f) ensures sl in Places(owner', f) {
      var z :| z in owner && owner[z].file == f && owner[z].slot == sl;
      InPlaces(owner', f, z);
    }
    forall sl | sl in PlacesOf(owner', zones) ensures sl in Places(owner', f) && sl !in Places(owner, f) {
      var z :| z in zones && owner'[z].slot == sl;
      InPlaces(owner', f, z);
      forall y | y in owner && owner[y].file == f ensures owner[y].slot != sl {
        assert owner'[y] != owner'[z];
      }
    }
    forall sl | sl in Places(owner', f) && sl !in Places(owner, f) ensures sl in PlacesOf(owner', zones) && sl in path {
      var z :| z in owner' && owner'[z].file == f && owner'[z].slot == sl;
      if z in owner {
        InPlaces(owner, f, z);
      }
    }
  }

  lemma GrownSize(owner: map<int, Owner>, owner': map<int, Owner>)
    requires forall w :: w in owner ==> w in owner'
    ensures |owner'.Keys - owner.Keys| == |owner'| - |owner|
  {
    forall w | w in owner.Keys ensures w in owner'.Keys {
      assert w in owner;
    }
    assert owner'.Keys == owner.Keys + (owner'.Keys - owner.Keys);
    assert |owner'.Keys| == |owner'| && |owner.Keys| == |owner|;
  }

  lemma GrownRoom(g: Geo, owner: map<int, Owner>, owner': map<int, Owner>, f: nat, path: seq<Slot>)
    requires Grown(owner, owner', f, path) && Distinct(owner')
    ensures Room(g, owner') == Room(g, owner) - |Places(owner', f) - Places(owner, f)|
  {
    GrownPlaces(owner, owner', f, path);
    AsManyPlaces(owner', owner'.Keys - owner.Keys, f);
    GrownSize(owner, owner');
  }

  // new_block() succeeded.
  lemma GotZone(g: Geo, owner: map<int, Owner>, owner': map<int, Owner>, f: nat, path: seq<Slot>)
    requires Grown(owner, owner', f, path) && Distinct(owner') && Room(g, owner') >= 0
    requires forall sl :: sl in path ==> sl in Places(owner', f)
    ensures HasRoom(g, owner, f, path) && Took(g, owner, owner', f, path)
  {
    GrownRoom(g, owner, owner', f, path);
    GrownPlaces(owner, owner', f, path);
    AllAdded(Places(owner, f), Places(owner', f), path);
  }

  lemma AllAdded(p: set<Slot>, p': set<Slot>, path: seq<Slot>)
    requires p <= p' && (forall sl :: sl in p' - p ==> sl in path) && forall sl :: sl in path ==> sl in p'
    ensures |p' - p| == Lacking(p, path) && forall sl :: sl in p' <==> sl in p || sl in path
  {
    LackingIs(p, path);
    assert p' - p == (set sl | sl in path) - p;
  }

  // It failed for want of the zone d itself, or, that set aside, of the
  // indirect zone h.
  lemma NoZone(g: Geo, owner: map<int, Owner>, owner': map<int, Owner>, f: nat, path: seq<Slot>, d: Slot, h: Slot)
    requires Grown(owner, owner', f, path) && Distinct(owner') && d in path && d !in Places(owner', f)
    requires
      if Room(g, owner') == 0 then owner' == owner
      else
        && Room(g, owner') == 1 && h in path && h != d && h !in Places(owner', f)
        && forall sl :: sl in path ==> sl == d || sl == h || sl == Double
    ensures !HasRoom(g, owner, f, path) && Took(g, owner, owner', f, Leftover(g, owner, f, path))
  {
    GrownRoom(g, owner, owner', f, path);
    GrownPlaces(owner, owner', f, path);
    if Room(g, owner') == 0 {
      Missing(Places(owner, f), Places(owner', f), path, {d});
    } else {
      NoIndirect(Places(owner, f), Places(owner', f), path, d, h, Room(g, owner));
    }
  }

  lemma NoIndirect(p: set<Slot>, p': set<Slot>, path: seq<Slot>, d: Slot, h: Slot, room: int)
    requires p <= p' && (forall sl :: sl in p' - p ==> sl in path) && d in path && d !in p' && h in path && h !in p'
    requires h != d
    requires forall sl :: sl in path ==> sl == d || sl == h || sl == Double
    requires room == |p' - p| + 1
    ensures Lacking(p, path) > room
    ensures var left := if Double in path && Double !in p && room == 2 then [Double] else [];
      && (forall sl :: sl in p' <==> sl in p || sl in left) && room - Lacking(p, left) == 1
  {
    Missing(p, p', path, {d, h});
    OnlyDouble(p, p', path, d, h);
    assert Lacking(p, [Double]) == if Double in p then 0 else 1;
  }

  lemma Missing(p: set<Slot>, p': set<Slot>, path: seq<Slot>, m: set<Slot>)
    requires p <= p' && (forall sl :: sl in p' - p ==> sl in path) && (forall sl :: sl in m ==> sl in path) && m !! p'
    ensures Lacking(p, path) >= |p' - p| + |m|
  {
    LackingIs(p, path);
    var all := (set sl | sl in path) - p;
    assert all == (p' - p) + m + (all - (p' - p) - m);
  }

  lemma OnlyDouble(p: set<Slot>, p': set<Slot>, path: seq<Slot>, d: Slot, h: Slot)
    requires p <= p' && (forall sl :: sl in p' - p ==> sl in path) && d !in p' && h !in p'
    requires forall sl :: sl in path ==> sl == d || sl == h || sl == Double
    ensures p' == p || (p' == p + {Double} && Double in path && Double !in p)
    ensures |p' - p| == if p' == p then 0 else 1
  {
    if Double in p' && Double !in p {
      assert p' - p == {Double};
      assert p' == p + {Double};
    } else {
      forall sl | sl in p' ensures sl in p {
        assert sl !in p ==> sl in p' - p;
      }
      assert p' == p;
      assert p' - p == {};
    }
  }

  // ---------------------------------------------------------------------
  // How far a write gets

  // As far as there was room, and no farther.
  ghost predicate Reached(g: Geo, way: Ways, owner: map<int, Owner>, f: nat, pos: nat, size: nat, k: nat)
    requires pos + size <= |way|
  {
    forall n {:trigger Fits(g, way, owner, f, pos, n)} :: 0 < n <= size ==> (n <= k <==> Fits(g, way, owner, f, pos, n))
  }

  lemma {:induction false} TouchedPrefix(way: Ways, pos: nat, m: nat, n: nat) returns (rest: seq<Slot>)
    requires m <= n && pos + n <= |way|
    ensures Touched(way, pos, n) == Touched(way, pos, m) + rest
    decreases n
  {
    if m == n {
      rest := [];
      assert Touched(way, pos, m) + [] == Touched(way, pos, m);
    } else {
      var r := TouchedPrefix(way, pos, m, n - 1);
      rest := r + way[pos + n - 1];
      assert Touched(way, pos, n) == Touched(way, pos, m) + r + way[pos + n - 1];
      assert Touched(way, pos, m) + r + way[pos + n - 1] == Touched(way, pos, m) + rest;
    }
  }

  // Fewer bytes need no more zones.
  lemma FitsMono(g: Geo, way: Ways, owner: map<int, Owner>, f: nat, pos: nat, m: nat, n: nat)
    requires m <= n && pos + n <= |way| && Fits(g, way, owner, f, pos, n)
    ensures Fits(g, way, owner, f, pos, m)
  {
    var rest := TouchedPrefix(way, pos, m, n);
    var p, a := Places(owner, f), Touched(way, pos, m);
    LackingAppend(p, a, rest, p + set sl | sl in a);
  }

  // More bytes of one zone need no more than one of them.
  lemma {:induction false} TouchedMore(p: set<Slot>, way: Ways, pos: nat, k: nat, m: nat)
    requires m > 0 && pos + k + m <= |way| && OneWay(way, pos + k, m)
    ensures forall sl :: sl in Touched(way, pos, k + m) <==> sl in Touched(way, pos, k) || sl in way[pos + k]
    ensures Lacking(p, Touched(way, pos, k + m)) == Lacking(p, Touched(way, pos, k) + way[pos + k])
    decreases m
  {
    if m > 1 {
      TouchedMore(p, way, pos, k, m - 1);
      assert way[pos + k + m - 1] == way[pos + k];
      LackingTwice(p, Touched(way, pos, k + m - 1), way[pos + k]);
    }
  }

  // The zones taken are those that k bytes need.
  ghost predicate Tally(g: Geo, way: Ways, owner: map<int, Owner>, f: nat, pos: nat, k: nat, taken: seq<Slot>)
    requires pos + k <= |way|
  {
    && Lacking(Places(owner, f), taken) == Lacking(Places(owner, f), Touched(way, pos, k))
    && forall sl :: sl in taken <==> sl in Touched(way, pos, k)
  }

  lemma TallyNone(g: Geo, way: Ways, owner: map<int, Owner>, f: nat, pos: nat)
    requires pos <= |way|
    ensures Tally(g, way, owner, f, pos, 0, [])
  {}

  lemma TallyNext(g: Geo, way: Ways, owner: map<int, Owner>, f: nat, pos: nat, k: nat, m: nat, taken: seq<Slot>)
    requires m > 0 && pos + k + m <= |way| && OneWay(way, pos + k, m) && Tally(g, way, owner, f, pos, k, taken)
    ensures Tally(g, way, owner, f, pos, k + m, taken + way[pos + k])
  {
    var p, t := Places(owner, f), Touched(way, pos, k);
    var p' := p + set sl | sl in t;
    TouchedMore(p, way, pos, k, m);
    LackingAppend(p, t, way[pos + k], p');
    LackingAppend(p, taken, way[pos + k], p');
  }

  lemma RoomReached(g: Geo, way: Ways, owner: map<int, Owner>, f: nat, pos: nat, size: nat, k: nat, taken: seq<Slot>)
    requires k <= size && pos + size <= |way| && Tally(g, way, owner, f, pos, k, taken) && HasRoom(g, owner, f, taken)
    requires k < size ==> !HasRoom(g, owner, f, taken + way[pos + k])
    ensures Reached(g, way, owner, f, pos, size, k)
  {
    forall n | 0 < n <= k ensures Fits(g, way, owner, f, pos, n) {
      FitsMono(g, way, owner, f, pos, n, k);
    }
    if k < size {
      TallyNext(g, way, owner, f, pos, k, 1, taken);
      forall n | k < n <= size ensures !Fits(g, way, owner, f, pos, n) {
        if Fits(g, way, owner, f, pos, n) {
          FitsMono(g, way, owner, f, pos, k + 1, n);
        }
      }
    }
  }

  lemma SpentFits(g: Geo, owner0: map<int, Owner>, owner: map<int, Owner>, f: nat, taken: seq<Slot>)
    requires Spent(g, owner0, owner, f, taken)
    ensures HasRoom(g, owner0, f, taken)
  {}

  lemma ZoneMono(g: Geo, a: nat, b: nat)
    requires g.Valid() && a <= b
    ensures ZoneNr(g, a) <= ZoneNr(g, b)
  {
    DivMono(a, b, g.bs);
    DivMono(BlockNr(g, a), BlockNr(g, b), g.spz);
  }

  // If the zone of pos was missing, it is the one that the bit map was to
  // yield at the start.
  ghost predicate FirstZone(g: Geo, owner0: map<int, Owner>, store0: Store, ino0: Inode, store: Store, ino: Inode,
                            pos: nat)
    requires g.Valid() && |ino0.zone| == NR_ZONE_NUMS && |ino.zone| == NR_ZONE_NUMS
  {
    ZoneOf(g, store0, ino0, ZoneNr(g, pos)) == NO_ZONE ==>
      ZoneOf(g, store, ino, ZoneNr(g, pos)) == NextZone(g, owner0.Keys, ZoneHint(g, ino0))
  }
}
