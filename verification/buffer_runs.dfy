// Whole runs of the cache: any sequence of gets, puts, edits by holders,
// syncs and closings of a device.

module BufferRuns {
  import opened Links
  import opened BufferPool
  import opened MapLoads
  import opened Blocks

  // Purge: close a block device, which syncs and then invalidates it.  Load:
  // load_bit_maps(), where the busy bits it sets are not lost; Uncount: the
  // first line of unload_bit_maps(), whose other steps are puts.
  datatype Event =
    | GetBlock(key: Key, mode: Mode)
    | PutBlock(b: int, how: Release)
    | EditBlock(b: int, data: Block)
    | Sync
    | Purge(dev: int)
    | Load(dev: int, imaps: nat, zmaps: nat)
    | Uncount(n: nat)

  predicate NoBlank(p: Pool) {
    forall b :: 0 <= b < |p.bufs| ==> !p.bufs[b].blank
  }

  ghost predicate Legal(p: Pool, e: Event)
    requires Shape(p) && Coherent(p)
  {
    match e
    case GetBlock(k, _) => CanGet(p, k)
    case PutBlock(b, how) =>
      0 <= b < |p.bufs| && p.bufs[b].count > 0 && !p.bufs[b].blank && (how.zuper ==> how.writeImmed)
    case EditBlock(b, _) => 0 <= b < |p.bufs| && p.bufs[b].count > 0
    case Sync => NoBlank(p)
    case Purge(dev) => NoBlank(p) && dev != NO_DEV
    case Load(dev, imaps, zmaps) => Loads(p, dev, imaps, zmaps) && MayLoad(p, dev, imaps, zmaps)
    case Uncount(n) => n <= p.reserved
  }

  ghost function Step(p: Pool, e: Event): Pool
    requires Shape(p) && Coherent(p) && Legal(p, e)
  {
    match e
    case GetBlock(k, mode) => Get(p, k, mode).0
    case PutBlock(b, how) => Put(p, b, how)
    case EditBlock(b, data) => Edit(p, b, data)
    case Sync => Flush(p)
    case Purge(dev) => Invalidate(Flush(p), dev)
    case Load(dev, imaps, zmaps) => LoadMaps(p, dev, imaps, zmaps)
    case Uncount(n) => p.(reserved := p.reserved - n)
  }

  lemma InvalidateKeeps(p: Pool, dev: int)
    requires Shape(p) && Coherent(p)
    ensures Shape(Invalidate(p, dev)) && Coherent(Invalidate(p, dev))
  {}

  lemma StepKeeps(p: Pool, e: Event)
    requires Shape(p) && Coherent(p) && Legal(p, e)
    ensures Shape(Step(p, e)) && Coherent(Step(p, e))
  {
    match e
    case GetBlock(k, mode) => GetKeeps(p, k, mode);
    case PutBlock(b, how) => PutKeeps(p, b, how);
    case EditBlock(b, data) => EditKeeps(p, b, data);
    case Sync => FlushCleans(p);
    case Purge(dev) => FlushCleans(p); InvalidateKeeps(Flush(p), dev);
    case Load(dev, imaps, zmaps) => LoadKeeps(p, dev, imaps, zmaps);
    case Uncount(_) =>
  }

  ghost function Run(p: Pool, es: seq<Event>): (r: Pool)
    requires Shape(p) && Coherent(p)
    ensures Shape(r) && Coherent(r)
    decreases |es|
  {
    if es == [] then p
    else if Legal(p, es[0]) then StepKeeps(p, es[0]); Run(Step(p, es[0]), es[1..])
    else Run(p, es[1..])
  }

  // ---------------------------------------------------------------------
  // The cache is a plain store

  // The contents of all devices as a client thinks of them.
  type Store = Key -> Block

  // Only a holder's edit changes the store, and the busy bits.
  ghost function Stored(p: Pool, store: Store, e: Event): Store
    requires Shape(p) && Coherent(p) && Legal(p, e)
  {
    match e
    case EditBlock(b, data) => (k: Key) => if k == KeyOf(p.bufs[b]) then data else store(k)
    case Load(dev, imaps, _) => (k: Key) => WithBusy(dev, imaps, k, store(k))
    case _ => store
  }

  ghost function StoredRun(p: Pool, store: Store, es: seq<Event>): Store
    requires Shape(p) && Coherent(p)
    decreases |es|
  {
    if es == [] then store
    else if Legal(p, es[0]) then
      StepKeeps(p, es[0]);
      StoredRun(Step(p, es[0]), Stored(p, store, es[0]), es[1..])
    else StoredRun(p, store, es[1..])
  }

  // Does somebody hold k who has yet to overwrite it?
  predicate Blank(p: Pool, k: Key) {
    var i := Find(p.bufs, k);
    i < |p.bufs| && p.bufs[i].blank
  }

  ghost predicate Shows(p: Pool, store: Store) {
    forall k: Key :: k.dev != NO_DEV && !Blank(p, k) ==> View(p, k) == store(k)
  }

  lemma {:induction false} BlankFrame(p: Pool, r: Pool, k: Key)
    requires |r.bufs| == |p.bufs|
    requires forall b :: 0 <= b < |p.bufs| ==> Holds(r.bufs[b], k) == Holds(p.bufs[b], k)
    requires forall b :: 0 <= b < |p.bufs| && Holds(p.bufs[b], k) ==> r.bufs[b].blank == p.bufs[b].blank
    ensures Blank(r, k) == Blank(p, k)
  {
    SameFind(p.bufs, r.bufs, k);
  }

  lemma GetShows(p: Pool, store: Store, k: Key, mode: Mode)
    requires Shape(p) && Coherent(p) && CanGet(p, k) && Shows(p, store)
    ensures Shows(Get(p, k, mode).0, store)
  {
    GetKeeps(p, k, mode);
    var r := Get(p, k, mode).0;
    forall k': Key | k'.dev != NO_DEV && !Blank(r, k') ensures View(r, k') == store(k') {
      if Cached(p, k) {
        BlankFrame(p, r, k');
      } else {
        MissBlank(p, k, mode, k');
      }
    }
  }

  // What a miss shows was not blank before, nor is it the block to overwrite.
  lemma MissBlank(p: Pool, k: Key, mode: Mode, k': Key)
    requires Shape(p) && Coherent(p) && CanGet(p, k) && !Cached(p, k)
    requires k'.dev != NO_DEV && !Blank(Get(p, k, mode).0, k')
    ensures !Blank(p, k') && (k' == k ==> mode == Normal)
  {
    GetKeeps(p, k, mode);
    var (r, i) := Get(p, k, mode);
    if k' == k {
      FindUnique(r, i);
      assert Find(p.bufs, k) == |p.bufs|;
    } else if Holds(p.bufs[i], k') {
      FindUnique(p, i);
    } else {
      BlankFrame(p, r, k');
    }
  }

  lemma {:induction false} HeldShows(p: Pool, store: Store, dev: int, block: nat, n: nat)
    requires Shape(p) && Coherent(p) && BufsInUse(p) + n <= |p.bufs| && dev != NO_DEV && Shows(p, store)
    ensures Shows(MapsHeld(p, dev, block, n), store)
    decreases n
  {
    if n > 0 {
      var k := Key(dev, block);
      GetShows(p, store, k, Normal);
      GetKeeps(p, k, Normal);
      GetCounts(p, k, Normal);
      HeldShows(Get(p, k, Normal).0, store, dev, block + 1, n - 1);
    }
  }

  lemma BothShow(p: Pool, store: Store, dev: int, imaps: nat, zmaps: nat)
    requires Loads(p, dev, imaps, zmaps) && Shows(p, store)
    ensures Shows(BothHeld(p, dev, imaps, zmaps), store)
  {
    HeldShows(p, store, dev, SUPER_BLOCK + 1, imaps);
    HeldShows(MapsHeld(p, dev, SUPER_BLOCK + 1, imaps), store, dev, SUPER_BLOCK + 1 + imaps, zmaps);
  }

  lemma LoadStored(p: Pool, store: Store, dev: int, imaps: nat, zmaps: nat)
    requires Loads(p, dev, imaps, zmaps) && MayLoad(p, dev, imaps, zmaps) && Shows(p, store)
    ensures Shows(LoadMaps(p, dev, imaps, zmaps), Stored(p, store, Load(dev, imaps, zmaps)))
  {
    hide Shape, Coherent, LoadMaps, BothHeld, MayLoad, WithBusy, Find;
    BothShow(p, store, dev, imaps, zmaps);
    LoadedMaps(p, dev, imaps, zmaps);
    LoadFrame(p, dev, imaps, zmaps);
    LoadShows(p, dev, imaps, zmaps);
    var held, r := BothHeld(p, dev, imaps, zmaps), LoadMaps(p, dev, imaps, zmaps);
    forall k: Key | k.dev != NO_DEV && !Blank(r, k)
      ensures View(r, k) == WithBusy(dev, imaps, k, store(k))
    {
      BlankFrame(held, r, k);
    }
  }

  lemma EditShows(p: Pool, store: Store, e: Event)
    requires Shape(p) && Coherent(p) && Legal(p, e) && e.EditBlock? && Shows(p, store)
    ensures Shows(Step(p, e), Stored(p, store, e))
  {
    EditKeeps(p, e.b, e.data);
    var r := Step(p, e);
    forall k: Key | k.dev != NO_DEV && !Blank(r, k) ensures View(r, k) == Stored(p, store, e)(k) {
      if k != KeyOf(p.bufs[e.b]) {
        BlankFrame(p, r, k);
      }
    }
  }

  lemma PutShows(p: Pool, store: Store, b: nat, how: Release)
    requires Shape(p) && Coherent(p) && b < |p.bufs| && p.bufs[b].count > 0 && !p.bufs[b].blank
    requires how.zuper ==> how.writeImmed
    requires Shows(p, store)
    ensures Shows(Put(p, b, how), store)
  {
    PutKeeps(p, b, how);
    var r := Put(p, b, how);
    forall k: Key | k.dev != NO_DEV && !Blank(r, k) ensures View(r, k) == store(k) {
      if Holds(p.bufs[b], k) {
        FindUnique(p, b);
      } else {
        BlankFrame(p, r, k);
      }
    }
  }

  lemma CleanShows(p: Pool, r: Pool, store: Store)
    requires NoBlanks(p) && Shows(p, store)
    requires forall k :: View(r, k) == View(p, k)
    ensures Shows(r, store)
  {
    forall k: Key | k.dev != NO_DEV && !Blank(r, k) ensures View(r, k) == store(k) {
      assert !Blank(p, k);
    }
  }

  // No sequence of gets, puts, evictions, write-backs, dropped super blocks,
  // syncs and purges changes what a block contains; only holders' edits do.
  lemma {:induction false} CacheIsStore(p: Pool, store: Store, es: seq<Event>)
    requires Shape(p) && Coherent(p) && Shows(p, store)
    ensures Shows(Run(p, es), StoredRun(p, store, es))
    decreases |es|
  {
    if es != [] {
      if Legal(p, es[0]) {
        var e := es[0];
        match e {
          case GetBlock(k, mode) => GetShows(p, store, k, mode);
          case PutBlock(b, how) => PutShows(p, store, b, how);
          case EditBlock(b, data) => EditShows(p, store, e);
          case Sync => FlushCleans(p); CleanShows(p, Flush(p), store);
          case Purge(dev) => SyncThenInvalidate(p, dev); CleanShows(p, Invalidate(Flush(p), dev), store);
          case Load(dev, imaps, zmaps) => LoadStored(p, store, dev, imaps, zmaps);
          case Uncount(_) =>
        }
        StepKeeps(p, e);
        CacheIsStore(Step(p, e), Stored(p, store, e), es[1..]);
      } else {
        CacheIsStore(p, store, es[1..]);
      }
    }
  }

  // ---------------------------------------------------------------------
  // Least recently released

  // stamps[b]: when buffer b was last released; now: the next stamp.
  datatype Timed = Timed(p: Pool, stamps: seq<int>, now: int)

  ghost predicate Ordered(t: Timed) {
    && Shape(t.p) && Coherent(t.p) && |t.stamps| == |t.p.bufs|
    && (forall b :: 0 <= b < |t.stamps| ==> t.stamps[b] < t.now)
    && (forall i, j :: 0 <= i < j < |t.p.lru| && 0 <= t.p.lru[i] < |t.stamps| && 0 <= t.p.lru[j] < |t.stamps|
          ==> t.stamps[t.p.lru[i]] < t.stamps[t.p.lru[j]])
  }

  ghost function TimedStep(t: Timed, e: Event): (r: Timed)
    requires Ordered(t) && Legal(t.p, e)
  {
    var released := e.PutBlock? && t.p.bufs[e.b].count == 1;
    Timed(Step(t.p, e), if released then t.stamps[e.b := t.now] else t.stamps, t.now + 1)
  }

  ghost predicate NoOneShot(es: seq<Event>) {
    forall i :: 0 <= i < |es| && es[i].PutBlock? ==> !es[i].how.oneShot
  }

  lemma RemovedOrder(t: Timed, b: int)
    requires Ordered(t) && b in t.p.lru
    ensures var q := Remove(t.p.lru, b);
      forall i, j :: 0 <= i < j < |q| && 0 <= q[i] < |t.stamps| && 0 <= q[j] < |t.stamps|
        ==> t.stamps[q[i]] < t.stamps[q[j]]
  {
    var q, lru := Remove(t.p.lru, b), t.p.lru;
    var k := IndexOf(lru, b);
    forall i, j | 0 <= i < j < |q| && 0 <= q[i] < |t.stamps| && 0 <= q[j] < |t.stamps|
      ensures t.stamps[q[i]] < t.stamps[q[j]]
    {
      assert q[i] == lru[if i < k then i else i + 1];
      assert q[j] == lru[if j < k then j else j + 1];
    }
  }

  // The buffer released last is at the rear.
  lemma ReleasedOrder(t: Timed, b: int, how: Release)
    requires Ordered(t) && Legal(t.p, PutBlock(b, how)) && !how.oneShot
    ensures var r := TimedStep(t, PutBlock(b, how));
      && (forall a :: 0 <= a < |r.stamps| ==> r.stamps[a] < r.now)
      && (forall i, j :: 0 <= i < j < |r.p.lru| && 0 <= r.p.lru[i] < |r.stamps| && 0 <= r.p.lru[j] < |r.stamps|
            ==> r.stamps[r.p.lru[i]] < r.stamps[r.p.lru[j]])
  {
    var r := TimedStep(t, PutBlock(b, how));
    if t.p.bufs[b].count == 1 {
      RemovedOrder(t, b);
      RemoveMembers(t.p.lru, b);
      var q := Remove(t.p.lru, b);
      assert r.p.lru == q + [b];
      forall i | 0 <= i < |q| ensures q[i] != b {
        assert q[i] in q;
      }
    }
  }

  lemma TimedKeeps(t: Timed, e: Event)
    requires Ordered(t) && Legal(t.p, e) && (e.PutBlock? ==> !e.how.oneShot)
    ensures Ordered(TimedStep(t, e))
  {
    StepKeeps(t.p, e);
    match e
    case PutBlock(b, how) => ReleasedOrder(t, b, how);
    case Sync => FlushCleans(t.p); FlushLru(t.p);
    case Purge(_) => FlushCleans(t.p); FlushLru(t.p);
    case _ =>
  }

  lemma FlushLru(p: Pool)
    requires Shape(p) && Coherent(p) && NoBlanks(p)
    ensures Flush(p).lru == p.lru
  {
    FlushFromKeeps(p, 0, true);
    FlushFromKeeps(FlushFrom(p, 0, true), 0, false);
  }

  ghost function TimedRun(t: Timed, es: seq<Event>): (r: Timed)
    requires Ordered(t) && NoOneShot(es)
    ensures Ordered(r)
    decreases |es|
  {
    if es == [] then t
    else if Legal(t.p, es[0]) then TimedKeeps(t, es[0]); TimedRun(TimedStep(t, es[0]), es[1..])
    else TimedRun(t, es[1..])
  }

  lemma VictimIsOldest(r: Timed, a: nat)
    requires Ordered(r) && InUse(r.p.bufs) < |r.p.bufs| && a < |r.p.bufs| && r.p.bufs[a].count == 0
    ensures r.stamps[Victim(r.p)] <= r.stamps[a]
  {
    SomeFree(r.p);
    assert a in r.p.lru;
    var j :| 0 <= j < |r.p.lru| && r.p.lru[j] == a;
    assert FirstFree(r.p.bufs, r.p.lru) <= j;
  }

  // Without one-shot releases, the buffer that a miss takes is, of all those
  // not in use, the one that was released longest ago.
  lemma EvictsLeastRecent(t: Timed, es: seq<Event>, a: nat)
    requires Ordered(t) && NoOneShot(es)
    requires var r := TimedRun(t, es); InUse(r.p.bufs) < |r.p.bufs| && a < |r.p.bufs| && r.p.bufs[a].count == 0
    ensures var r := TimedRun(t, es);
      r.stamps[Victim(r.p)] <= r.stamps[a]
  {
    VictimIsOldest(TimedRun(t, es), a);
  }

  // The cache as buf_pool() leaves it is in such an order.
  lemma FreshOrdered(n: nat, disk: Disk)
    ensures Ordered(Timed(Fresh(n, disk), seq(n, i => i - n), 0))
  {
    FreshOk(n, disk);
  }

  // So it holds of every run from there.
  lemma EvictsFromStart(n: nat, disk: Disk, es: seq<Event>, a: nat)
    requires NoOneShot(es)
    ensures var t := Timed(Fresh(n, disk), seq(n, i => i - n), 0);
      Ordered(t) &&
      var r := TimedRun(t, es);
      InUse(r.p.bufs) < |r.p.bufs| && a < |r.p.bufs| && r.p.bufs[a].count == 0 ==> r.stamps[Victim(r.p)] <= r.stamps[a]
  {
    FreshOrdered(n, disk);
    var r := TimedRun(Timed(Fresh(n, disk), seq(n, i => i - n), 0), es);
    if InUse(r.p.bufs) < |r.p.bufs| && a < |r.p.bufs| && r.p.bufs[a].count == 0 {
      VictimIsOldest(r, a);
    }
  }

  // ---------------------------------------------------------------------
  // The counter passes the number of buffers

}
