// When blocks reach the disk: what put_block() writes, and that blocks released
// with WRITE_IMMED are on the disk whenever nobody holds them.

module CacheWrites {
  import opened Links
  import opened Blocks
  import opened BufferPool
  import opened MapLoads
  import opened BufferRuns

  // ---------------------------------------------------------------------
  // One release

  // The last release with WRITE_IMMED leaves the block on the disk and the
  // buffer clean; no other release writes anything, and none writes any other
  // block.
  lemma PutWrites(p: Pool, b: nat, how: Release)
    requires Coherent(p) && b < |p.bufs| && p.bufs[b].count > 0 && !p.bufs[b].blank
    ensures var r, f := Put(p, b, how), p.bufs[b];
      && (f.count == 1 && how.writeImmed && f.dev != NO_DEV ==>
            DiskAt(r.disk, KeyOf(f)) == f.data && !r.bufs[b].dirt)
      && (f.count > 1 || !how.writeImmed || f.dev == NO_DEV ==> r.disk == p.disk && r.bufs[b].dirt == f.dirt)
      && (forall k :: k != KeyOf(f) ==> DiskAt(r.disk, k) == DiskAt(p.disk, k))
      && r.bufs[b].data == f.data
  {}

  // So an indirect block is written at once, and a data block is not.
  lemma KindsOfBlocks(p: Pool, b: nat)
    requires Coherent(p) && b < |p.bufs| && p.bufs[b].count == 1 && !p.bufs[b].blank && p.bufs[b].dev != NO_DEV
    ensures DiskAt(Put(p, b, INDIRECT_BLOCK).disk, KeyOf(p.bufs[b])) == p.bufs[b].data
    ensures Put(p, b, FULL_DATA_BLOCK).disk == Put(p, b, PARTIAL_DATA_BLOCK).disk == p.disk
  {
    PutWrites(p, b, INDIRECT_BLOCK);
    PutWrites(p, b, FULL_DATA_BLOCK);
    PutWrites(p, b, PARTIAL_DATA_BLOCK);
  }

  // A get writes at most the block that it evicts.
  lemma GetWrites(p: Pool, k: Key, mode: Mode)
    requires Shape(p) && Coherent(p) && CanGet(p, k)
    ensures var (r, i) := Get(p, k, mode);
      && (Cached(p, k) ==> r.disk == p.disk && r.bufs[i].dirt == p.bufs[i].dirt)
      && (!Cached(p, k) ==> p.bufs[i].count == 0)
      && forall k': Key :: k'.dev != NO_DEV ==>
           DiskAt(r.disk, k') == if !Cached(p, k) && k' == KeyOf(p.bufs[i]) then p.bufs[i].data else DiskAt(p.disk, k')
  {
    var (r, i) := Get(p, k, mode);
    if !Cached(p, k) {
      assert !p.bufs[i].blank;
    }
  }

  // A super block is not cached after its last release; any other block stays.
  lemma PutDrops(p: Pool, b: nat, how: Release)
    requires Shape(p) && Coherent(p) && b < |p.bufs| && p.bufs[b].count > 0 && p.bufs[b].dev != NO_DEV
    ensures var r, k := Put(p, b, how), KeyOf(p.bufs[b]);
      Cached(r, k) <==> !(p.bufs[b].count == 1 && how.zuper)
  {
    var r, k := Put(p, b, how), KeyOf(p.bufs[b]);
    if p.bufs[b].count == 1 && how.zuper {
      assert forall a :: 0 <= a < |r.bufs| ==> !Holds(r.bufs[a], k);
    } else {
      assert Holds(r.bufs[b], k);
    }
  }

  // What was released as not needed again is the next to go.
  lemma OneShotGoesFirst(p: Pool, b: nat, how: Release)
    requires Shape(p) && b < |p.bufs| && p.bufs[b].count == 1 && how.oneShot
    ensures var r := Put(p, b, how);
      Shape(r) && InUse(r.bufs) < |r.bufs| && Victim(r) == b
  {
    PutShape(p, b, how);
    PutFrame(p, b, how);
    var r := Put(p, b, how);
    InUseUpdate(p.bufs, b, r.bufs[b]);
    assert r.lru[0] == b;
  }

  // What was released as needed again goes only when no other buffer is free.
  lemma OthersGoFirst(p: Pool, b: nat, how: Release)
    requires Shape(p) && b < |p.bufs| && p.bufs[b].count == 1 && !how.oneShot
    ensures var r := Put(p, b, how);
      && Shape(r) && InUse(r.bufs) < |r.bufs|
      && (Victim(r) == b <==> forall a :: 0 <= a < |r.bufs| && a != b ==> r.bufs[a].count > 0)
  {
    PutShape(p, b, how);
    PutFrame(p, b, how);
    var r := Put(p, b, how);
    InUseUpdate(p.bufs, b, r.bufs[b]);
    SomeFree(r);
    assert r.lru[|r.lru| - 1] == b;
    if Victim(r) == b {
      forall a | 0 <= a < |r.bufs| && a != b ensures r.bufs[a].count > 0 {
        assert a in r.lru;
      }
    }
  }

  // ---------------------------------------------------------------------
  // Over runs

  // Free buffers of these blocks are clean.
  ghost predicate Written(p: Pool, important: Key -> bool) {
    forall b :: 0 <= b < |p.bufs| && p.bufs[b].count == 0 && p.bufs[b].dev != NO_DEV && important(KeyOf(p.bufs[b])) ==>
      !p.bufs[b].dirt
  }

  // These blocks are always released with WRITE_IMMED.
  ghost predicate Careful(p: Pool, e: Event, important: Key -> bool) {
    e.PutBlock? && 0 <= e.b < |p.bufs| && important(KeyOf(p.bufs[e.b])) ==> e.how.writeImmed
  }

  ghost predicate CarefulRun(p: Pool, es: seq<Event>, important: Key -> bool)
    requires Shape(p) && Coherent(p)
    decreases |es|
  {
    es != [] ==>
      if Legal(p, es[0]) then
        StepKeeps(p, es[0]);
        Careful(p, es[0], important) && CarefulRun(Step(p, es[0]), es[1..], important)
      else CarefulRun(p, es[1..], important)
  }

  lemma GetWritten(p: Pool, k: Key, mode: Mode, important: Key -> bool)
    requires Shape(p) && CanGet(p, k) && Written(p, important)
    ensures Written(Get(p, k, mode).0, important)
  {
    GetFrame(p, k, mode);
  }

  lemma {:induction false} HeldWritten(p: Pool, dev: int, block: nat, n: nat, important: Key -> bool)
    requires Shape(p) && Coherent(p) && BufsInUse(p) + n <= |p.bufs| && dev != NO_DEV && Written(p, important)
    ensures Written(MapsHeld(p, dev, block, n), important)
    decreases n
  {
    if n > 0 {
      GetKeeps(p, Key(dev, block), Normal);
      GetCounts(p, Key(dev, block), Normal);
      GetWritten(p, Key(dev, block), Normal, important);
      HeldWritten(Get(p, Key(dev, block), Normal).0, dev, block + 1, n - 1, important);
    }
  }

  lemma LoadWritten(p: Pool, dev: int, imaps: nat, zmaps: nat, important: Key -> bool)
    requires Loads(p, dev, imaps, zmaps) && Written(p, important)
    ensures Written(LoadMaps(p, dev, imaps, zmaps), important)
  {
    hide Shape, Coherent, LoadMaps, MapsHeld;
    HeldWritten(p, dev, SUPER_BLOCK + 1, imaps, important);
    HeldWritten(MapsHeld(p, dev, SUPER_BLOCK + 1, imaps), dev, SUPER_BLOCK + 1 + imaps, zmaps, important);
    LoadFrame(p, dev, imaps, zmaps);
  }

  lemma StepWritten(p: Pool, e: Event, important: Key -> bool)
    requires Shape(p) && Coherent(p) && Legal(p, e) && Written(p, important) && Careful(p, e, important)
    ensures Written(Step(p, e), important)
  {
    match e
    case GetBlock(k, mode) => GetWritten(p, k, mode, important);
    case PutBlock(b, how) => PutWrites(p, b, how); PutFrame(p, b, how);
    case EditBlock(b, data) =>
    case Sync => FlushCleans(p);
    case Purge(dev) => FlushCleans(p);
    case Load(dev, imaps, zmaps) => LoadWritten(p, dev, imaps, zmaps, important);
    case Uncount(_) =>
  }

  // Over every run in which the blocks of a kind are always released with
  // WRITE_IMMED, each of them that nobody holds is on the disk as it is seen.
  lemma {:induction false} ImportantOnDisk(p: Pool, es: seq<Event>, important: Key -> bool, k: Key)
    requires Shape(p) && Coherent(p) && Written(p, important) && CarefulRun(p, es, important)
    requires k.dev != NO_DEV && important(k) && !HeldBlock(Run(p, es), k)
    ensures DiskAt(Run(p, es).disk, k) == View(Run(p, es), k)
    decreases |es|
  {
    if es == [] {
      assert Cached(p, k) ==> KeyOf(p.bufs[Find(p.bufs, k)]) == k;
    } else if Legal(p, es[0]) {
      StepKeeps(p, es[0]);
      StepWritten(p, es[0], important);
      ImportantOnDisk(Step(p, es[0]), es[1..], important, k);
    } else {
      ImportantOnDisk(p, es[1..], important, k);
    }
  }
}
