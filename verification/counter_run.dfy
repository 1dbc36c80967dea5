// A run of the cache in which the counter of buffers in use reaches the number of
// buffers while some are free, passes it, and comes back.

module CounterRun {
  import opened BufferPool
  import opened BufferRuns
  import opened MapLoads

  // One inode map block and one zone map block, as mkfs makes them.
  const MAPS: Disk := map[Key(1, 2) := [3, 0], Key(1, 3) := [1, 0]]

  // The maps are loaded, block 10 is read and released, two blocks are held.
  const FILL: seq<Event> :=
    [Load(1, 1, 1), GetBlock(Key(1, 10), Normal), PutBlock(2, FULL_DATA_BLOCK),
     GetBlock(Key(1, 11), Normal), GetBlock(Key(1, 12), Normal)]

  const FREE_BUF := Buf(NO_DEV, 0, false, 0, false, [])
  const IMAP_BUF := Buf(1, 2, false, 1, false, [3, 0])
  const ZMAP_BUF := Buf(1, 3, false, 1, false, [1, 0])

  function Got(block: nat): Buf {
    Buf(1, block, false, 1, false, [])
  }

  // The six buffers when block 10 has that many users and two more are as given.
  function Six(users: nat, b3: Buf, b4: Buf, lru: seq<int>): Pool {
    Pool([IMAP_BUF, ZMAP_BUF, Got(10).(count := users), b3, b4, FREE_BUF], lru, 2, MAPS)
  }

  const FIRST := [0, 1, 2, 3, 4, 5]
  const LATER := [0, 1, 3, 4, 5, 2]

  lemma {:induction false} RunNext(p: Pool, es: seq<Event>, e: Event)
    requires Shape(p) && Coherent(p) && Legal(Run(p, es), e)
    ensures Run(p, es + [e]) == Step(Run(p, es), e)
    decreases |es|
  {
    if es == [] {
      StepKeeps(p, e);
      assert Run(Step(p, e), []) == Step(p, e);
    } else {
      assert (es + [e])[1..] == es[1..] + [e];
      if Legal(p, es[0]) {
        StepKeeps(p, es[0]);
        RunNext(Step(p, es[0]), es[1..], e);
      } else {
        RunNext(p, es[1..], e);
      }
    }
  }

  // A miss takes the first free buffer of the list.
  lemma MissTakes(p: Pool, k: Key, i: nat)
    requires Shape(p) && Coherent(p) && BufsInUse(p) != |p.bufs| && k.dev != NO_DEV && !Cached(p, k)
    requires i < |p.lru| && 0 <= p.lru[i] < |p.bufs| && p.bufs[p.lru[i]].count == 0
    requires forall j :: 0 <= j < i ==> 0 <= p.lru[j] < |p.bufs| && p.bufs[p.lru[j]].count > 0
    ensures CanGet(p, k) && Get(p, k, Normal) == (Reassign(p, p.lru[i], k, Normal), p.lru[i])
  {
    OneFreeLess(p.bufs, p.lru[i]);
    SomeFree(p);
    assert FirstFree(p.bufs, p.lru) == i;
  }

  lemma {:induction false} OneFreeLess(bufs: seq<Buf>, b: nat)
    requires b < |bufs| && bufs[b].count <= 0
    ensures InUse(bufs) < |bufs|
  {
    if b > 0 {
      OneFreeLess(bufs[1..], b - 1);
    }
  }

  lemma InUseFrom(bufs: seq<Buf>, i: nat)
    requires i < |bufs|
    ensures InUse(bufs[i..]) == (if bufs[i].count > 0 then 1 else 0) + InUse(bufs[i + 1..])
  {
    assert bufs[i..][1..] == bufs[i + 1..];
  }

  // How many of six are in use.
  lemma InUseSix(bufs: seq<Buf>)
    requires |bufs| == 6
    ensures InUse(bufs) ==
            (if bufs[0].count > 0 then 1 else 0) + (if bufs[1].count > 0 then 1 else 0) +
            (if bufs[2].count > 0 then 1 else 0) + (if bufs[3].count > 0 then 1 else 0) +
            (if bufs[4].count > 0 then 1 else 0) + (if bufs[5].count > 0 then 1 else 0)
  {
    assert bufs[0..] == bufs && InUse(bufs[6..]) == 0;
    InUseFrom(bufs, 0);
    InUseFrom(bufs, 1);
    InUseFrom(bufs, 2);
    InUseFrom(bufs, 3);
    InUseFrom(bufs, 4);
    InUseFrom(bufs, 5);
  }

  lemma NotCached(p: Pool, k: Key)
    requires forall b :: 0 <= b < |p.bufs| ==> !Holds(p.bufs[b], k)
    ensures !Cached(p, k)
  {}

  // ---------------------------------------------------------------------
  // Loading the maps

  function Held(): Pool {
    Pool([IMAP_BUF, ZMAP_BUF, FREE_BUF, FREE_BUF, FREE_BUF, FREE_BUF], FIRST, 0, MAPS)
  }

  lemma FreshBufs()
    ensures Fresh(6, MAPS) == Pool([FREE_BUF, FREE_BUF, FREE_BUF, FREE_BUF, FREE_BUF, FREE_BUF], FIRST, 0, MAPS)
  {}

  lemma FreshLoads()
    ensures Loads(Fresh(6, MAPS), 1, 1, 1)
  {
    FreshOk(6, MAPS);
  }

  lemma HeldFirst()
    requires Loads(Fresh(6, MAPS), 1, 1, 1)
    ensures BothHeld(Fresh(6, MAPS), 1, 1, 1) == Held()
  {
    var p := Fresh(6, MAPS);
    FreshBufs();
    FreshOk(6, MAPS);
    var p1 := Pool([IMAP_BUF, FREE_BUF, FREE_BUF, FREE_BUF, FREE_BUF, FREE_BUF], FIRST, 0, MAPS);
    HoldOne(p, p1, 2, 0);
    HoldOne(p1, Held(), 3, 1);
  }

  lemma MarkedAlready()
    ensures Busied([3, 0], INODE_BITS) == [3, 0] && Busied([1, 0], ZONE_BITS) == [1, 0]
  {}

  lemma LoadFirst()
    ensures Loads(Fresh(6, MAPS), 1, 1, 1) && MayLoad(Fresh(6, MAPS), 1, 1, 1)
    ensures LoadMaps(Fresh(6, MAPS), 1, 1, 1) == Held().(reserved := 2)
  {
    hide Shape, Coherent, Busied, MapsHeld;
    FreshLoads();
    HeldFirst();
    MarkedAlready();
    assert Find(Held().bufs, Key(1, 2)) == 0 && Find(Held().bufs, Key(1, 3)) == 1;
    assert MarkBusy(Held(), InodeMap(1), INODE_BITS) == Held();
    assert MarkBusy(Held(), ZoneMap(1, 1), ZONE_BITS) == Held();
  }

  lemma HoldOne(p: Pool, r: Pool, block: nat, b: nat)
    requires Shape(p) && Coherent(p) && BufsInUse(p) + 1 <= |p.bufs| && !Cached(p, Key(1, block))
    requires b < |p.lru| && p.lru[b] == b < |p.bufs| && p.bufs[b] == FREE_BUF
    requires forall j :: 0 <= j < b ==> 0 <= p.lru[j] < |p.bufs| && p.bufs[p.lru[j]].count > 0
    requires r == p.(bufs := p.bufs[b := Buf(1, block, false, 1, false, DiskAt(p.disk, Key(1, block)))])
    ensures MapsHeld(p, 1, block, 1) == r
  {
    MissTakes(p, Key(1, block), b);
    GetKeeps(p, Key(1, block), Normal);
    GetCounts(p, Key(1, block), Normal);
    assert MapsHeld(r, 1, block + 1, 0) == r;
  }

  // ---------------------------------------------------------------------
  // The other steps

  // A get of a block that is not cached, when buffer b is the first free one.
  lemma GetStep(p: Pool, block: nat, i: nat, r: Pool)
    requires Shape(p) && Coherent(p) && BufsInUse(p) != |p.bufs| && !Cached(p, Key(1, block))
    requires i < |p.lru| && 0 <= p.lru[i] < |p.bufs| && p.bufs[p.lru[i]] == FREE_BUF
    requires forall j :: 0 <= j < i ==> 0 <= p.lru[j] < |p.bufs| && p.bufs[p.lru[j]].count > 0
    requires r == p.(bufs := p.bufs[p.lru[i] := Buf(1, block, false, 1, false, DiskAt(p.disk, Key(1, block)))])
    ensures CanGet(p, Key(1, block)) && Get(p, Key(1, block), Normal).0 == r
  {
    MissTakes(p, Key(1, block), i);
  }

  // A run one event longer.
  lemma Then(p: Pool, es: seq<Event>, q: Pool, e: Event, r: Pool)
    requires Shape(p) && Coherent(p) && Run(p, es) == q
    requires Shape(q) && Coherent(q) ==> Legal(q, e) && Step(q, e) == r
    ensures Run(p, es + [e]) == r && Shape(r) && Coherent(r)
  {
    RunNext(p, es, e);
    StepKeeps(q, e);
  }

  lemma ReadTen(q: Pool)
    requires q == Held().(reserved := 2) && Shape(q) && Coherent(q)
    ensures Legal(q, GetBlock(Key(1, 10), Normal))
    ensures Step(q, GetBlock(Key(1, 10), Normal)) == Six(1, FREE_BUF, FREE_BUF, FIRST)
  {
    hide Shape, Coherent;
    InUseSix(q.bufs);
    NotCached(q, Key(1, 10));
    GetStep(q, 10, 2, Six(1, FREE_BUF, FREE_BUF, FIRST));
  }

  lemma MovesLast()
    ensures Relinked(FIRST, 2, false) == LATER && Relinked(LATER, 2, false) == LATER
  {}

  lemma ReleaseTen(q: Pool)
    requires q == Six(1, FREE_BUF, FREE_BUF, FIRST) && Shape(q) && Coherent(q)
    ensures Legal(q, PutBlock(2, FULL_DATA_BLOCK))
    ensures Step(q, PutBlock(2, FULL_DATA_BLOCK)) == Six(0, FREE_BUF, FREE_BUF, LATER)
  {
    hide Shape, Coherent, Relinked;
    MovesLast();
    assert Put(q, 2, FULL_DATA_BLOCK).bufs == Six(0, FREE_BUF, FREE_BUF, LATER).bufs;
  }

  lemma ReadEleven(q: Pool)
    requires q == Six(0, FREE_BUF, FREE_BUF, LATER) && Shape(q) && Coherent(q)
    ensures Legal(q, GetBlock(Key(1, 11), Normal))
    ensures Step(q, GetBlock(Key(1, 11), Normal)) == Six(0, Got(11), FREE_BUF, LATER)
  {
    hide Shape, Coherent;
    InUseSix(q.bufs);
    NotCached(q, Key(1, 11));
    GetStep(q, 11, 2, Six(0, Got(11), FREE_BUF, LATER));
  }

  lemma ReadTwelve(q: Pool)
    requires q == Six(0, Got(11), FREE_BUF, LATER) && Shape(q) && Coherent(q)
    ensures Legal(q, GetBlock(Key(1, 12), Normal))
    ensures Step(q, GetBlock(Key(1, 12), Normal)) == Six(0, Got(11), Got(12), LATER)
  {
    hide Shape, Coherent;
    InUseSix(q.bufs);
    NotCached(q, Key(1, 12));
    GetStep(q, 12, 3, Six(0, Got(11), Got(12), LATER));
  }

  lemma LoadStep(q: Pool)
    requires q == Fresh(6, MAPS) && Shape(q) && Coherent(q)
    ensures Legal(q, Load(1, 1, 1)) && Step(q, Load(1, 1, 1)) == Held().(reserved := 2)
  {
    hide Shape, Coherent, Held, MayLoad, LoadMaps;
    LoadFirst();
  }

  lemma EmptyRun(p: Pool)
    requires Shape(p) && Coherent(p)
    ensures Run(p, []) == p
  {}

  lemma Loading()
    ensures Shape(Fresh(6, MAPS)) && Coherent(Fresh(6, MAPS))
    ensures Run(Fresh(6, MAPS), [Load(1, 1, 1)]) == Held().(reserved := 2)
  {
    hide Shape, Coherent, Run, Legal, Step, Fresh, Held;
    FreshOk(6, MAPS);
    LoadStep(Fresh(6, MAPS));
    EmptyRun(Fresh(6, MAPS));
    assert [] + [Load(1, 1, 1)] == [Load(1, 1, 1)];
    Then(Fresh(6, MAPS), [], Fresh(6, MAPS), Load(1, 1, 1), Held().(reserved := 2));
  }

  // Where the run leads.
  lemma Filled()
    ensures Shape(Fresh(6, MAPS)) && Coherent(Fresh(6, MAPS))
    ensures Run(Fresh(6, MAPS), FILL) == Six(0, Got(11), Got(12), LATER)
  {
    hide Shape, Coherent, Run, Legal, Step, Six, Held;
    Loading();
    var p := Fresh(6, MAPS);
    var p1 := Held().(reserved := 2);
    var p2, p3 := Six(1, FREE_BUF, FREE_BUF, FIRST), Six(0, FREE_BUF, FREE_BUF, LATER);
    var p4 := Six(0, Got(11), FREE_BUF, LATER);
    var e2, e3 := GetBlock(Key(1, 10), Normal), PutBlock(2, FULL_DATA_BLOCK);
    var e4, e5 := GetBlock(Key(1, 11), Normal), GetBlock(Key(1, 12), Normal);
    var es1 := [Load(1, 1, 1)];
    ReadTen(p1);
    Then(p, es1, p1, e2, p2);
    ReleaseTen(p2);
    Then(p, es1 + [e2], p2, e3, p3);
    ReadEleven(p3);
    Then(p, es1 + [e2] + [e3], p3, e4, p4);
    ReadTwelve(p4);
    Then(p, es1 + [e2] + [e3] + [e4], p4, e5, Six(0, Got(11), Got(12), LATER));
    assert FILL == es1 + [e2] + [e3] + [e4] + [e5];
  }

  // ---------------------------------------------------------------------
  // At the number of buffers, past it, and back

  // Two buffers are free.  A block that is not cached is refused; a hit on
  // block 10 takes the counter to 7, and then that block is not refused; when
  // block 10 is released it is refused again.
  lemma CounterExample()
    ensures Shape(Fresh(6, MAPS)) && Coherent(Fresh(6, MAPS))
    ensures var p := Run(Fresh(6, MAPS), FILL);
      && BufsInUse(p) == |p.bufs| == 6 && InUse(p.bufs) == 4 && !CanGet(p, Key(1, 14))
    ensures var q := Run(Fresh(6, MAPS), FILL + [GetBlock(Key(1, 10), Normal)]);
      && BufsInUse(q) == 7 && CanGet(q, Key(1, 14))
    ensures var r := Run(Fresh(6, MAPS), FILL + [GetBlock(Key(1, 10), Normal), PutBlock(2, FULL_DATA_BLOCK)]);
      && BufsInUse(r) == 6 && InUse(r.bufs) == 4 && !CanGet(r, Key(1, 14))
  {
    hide Shape, Coherent, Run, Legal, Step, Six, CanGet, FILL;
    Filled();
    var p, lru := Fresh(6, MAPS), LATER;
    var p5, p6 := Six(0, Got(11), Got(12), lru), Six(1, Got(11), Got(12), lru);
    var e, e' := GetBlock(Key(1, 10), Normal), PutBlock(2, FULL_DATA_BLOCK);
    HitTen(p5);
    Then(p, FILL, p5, e, p6);
    AgainTen(p6);
    Then(p, FILL + [e], p6, e', p5);
    assert FILL + [e] + [e'] == FILL + [e, e'];
    AllCounted(p5);
    OneTooMany(p6);
  }

  lemma AllCounted(q: Pool)
    requires q == Six(0, Got(11), Got(12), LATER)
    ensures BufsInUse(q) == |q.bufs| == 6 && InUse(q.bufs) == 4 && !CanGet(q, Key(1, 14))
  {
    InUseSix(q.bufs);
    NotCached(q, Key(1, 14));
  }

  lemma OneTooMany(q: Pool)
    requires q == Six(1, Got(11), Got(12), LATER)
    ensures BufsInUse(q) == 7 && CanGet(q, Key(1, 14))
  {
    InUseSix(q.bufs);
  }

  lemma HitTen(q: Pool)
    requires q == Six(0, Got(11), Got(12), LATER) && Shape(q) && Coherent(q)
    ensures Legal(q, GetBlock(Key(1, 10), Normal))
    ensures Step(q, GetBlock(Key(1, 10), Normal)) == Six(1, Got(11), Got(12), LATER)
  {
    FindUnique(q, 2);
  }

  lemma AgainTen(q: Pool)
    requires q == Six(1, Got(11), Got(12), LATER) && Shape(q) && Coherent(q)
    ensures Legal(q, PutBlock(2, FULL_DATA_BLOCK))
    ensures Step(q, PutBlock(2, FULL_DATA_BLOCK)) == Six(0, Got(11), Got(12), LATER)
  {
    hide Shape, Coherent, Relinked;
    MovesLast();
    assert Put(q, 2, FULL_DATA_BLOCK).bufs == Six(0, Got(11), Got(12), LATER).bufs;
  }
}
