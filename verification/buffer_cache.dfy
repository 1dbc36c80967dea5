// The buffer table as cache.c keeps it: a doubly linked list in order of
// release, one hash chain for each bucket of block numbers, and a count of
// buffers in use.  Each routine does to the pool what module BufferPool says.

module BufferCache {
  import opened Basics
  import opened Links
  import opened BufferPool
  import opened MapLoads
  import opened Blocks

  function Rev(q: seq<int>): (r: seq<int>)
    ensures |r| == |q|
    ensures forall i :: 0 <= i < |q| ==> r[i] == q[|q| - 1 - i]
  {
    seq(|q|, i requires 0 <= i < |q| => q[|q| - 1 - i])
  }

  // A doubly linked list is a list in both directions.
  ghost predicate Linked2(next: seq<int>, prev: seq<int>, front: int, rear: int, q: seq<int>) {
    && |next| == |prev|
    && Chain(next, front, q)
    && Chain(prev, rear, Rev(q))
  }

  lemma RevRemoveAt(q: seq<int>, i: nat)
    requires i < |q|
    ensures Rev(RemoveAt(q, i)) == RemoveAt(Rev(q), |q| - 1 - i)
  {}

  lemma RevMembers(q: seq<int>)
    ensures forall x :: x in Rev(q) <==> x in q
  {
    forall x | x in q ensures x in Rev(q) {
      var i :| 0 <= i < |q| && q[i] == x;
      assert Rev(q)[|q| - 1 - i] == x;
    }
  }

  // Neighbours of a member.
  lemma Neighbours(next: seq<int>, prev: seq<int>, front: int, rear: int, q: seq<int>, i: nat)
    requires Linked2(next, prev, front, rear, q) && i < |q|
    ensures 0 <= q[i] < |next|
    ensures next[q[i]] == After(q, i)
    ensures prev[q[i]] == (if i > 0 then q[i - 1] else NIL)
    ensures front == q[0] && rear == q[|q| - 1]
  {
    var r := Rev(q);
    var j := |q| - 1 - i;
    assert r[j] == q[i];
    assert prev[r[j]] == After(r, j);
    assert j + 1 < |r| ==> r[j + 1] == q[i - 1];
  }

  lemma UnlinkSide(next: seq<int>, front: int, q: seq<int>, i: nat)
    requires Chain(next, front, q) && i < |q|
    ensures 0 <= q[i] < |next| && (i > 0 ==> 0 <= q[i - 1] < |next|)
    ensures Chain(if i > 0 then next[q[i - 1] := next[q[i]]] else next,
                  if i > 0 then front else next[q[i]], RemoveAt(q, i))
  {
    if i > 0 {
      ChainUnlink(next, front, q, i);
    } else {
      ChainTail(next, front, q);
    }
  }

  // Taking out the member at i, as put_block() does it.
  lemma Unlink2(next: seq<int>, prev: seq<int>, front: int, rear: int, q: seq<int>, i: nat)
    requires Linked2(next, prev, front, rear, q) && i < |q|
    ensures 0 <= q[i] < |next|
    ensures var n, p := next[q[i]], prev[q[i]];
      && (p != NIL ==> 0 <= p < |next|) && (n != NIL ==> 0 <= n < |prev|)
      && var next' := if p != NIL then next[p := n] else next;
         var prev' := if n != NIL then prev[n := p] else prev;
         Linked2(next', prev', if p != NIL then front else n, if n != NIL then rear else p, RemoveAt(q, i))
  {
    Neighbours(next, prev, front, rear, q, i);
    var j := |q| - 1 - i;
    var r := Rev(q);
    RevRemoveAt(q, i);
    assert r[j] == q[i] && (j > 0 ==> r[j - 1] == q[i + 1]);
    assert i > 0 ==> q[i - 1] >= 0;
    assert j > 0 ==> r[j - 1] >= 0;
    UnlinkSide(next, front, q, i);
    UnlinkSide(prev, rear, r, j);
  }

  lemma AtRear2(next: seq<int>, prev: seq<int>, front: int, rear: int, q: seq<int>, b: int)
    requires Linked2(next, prev, front, rear, q) && 0 <= b < |next| && b !in q
    ensures rear != NIL ==> 0 <= rear < |next|
    ensures var next' := (if rear == NIL then next else next[rear := b])[b := NIL];
      Linked2(next', prev[b := rear], if rear == NIL then b else front, b, q + [b])
  {
    RevMembers(q);
    ChainPrepend(prev, rear, Rev(q), b);
    assert Rev(q + [b]) == [b] + Rev(q);
    if q == [] {
      ChainAppendEmpty(next, b);
      assert q + [b] == [b];
    } else {
      Neighbours(next, prev, front, rear, q, |q| - 1);
      ChainAppend(next, front, q, b);
    }
  }

  lemma AtFront2(next: seq<int>, prev: seq<int>, front: int, rear: int, q: seq<int>, b: int)
    requires Linked2(next, prev, front, rear, q) && 0 <= b < |next| && b !in q
    ensures front != NIL ==> 0 <= front < |next|
    ensures var prev' := (if front == NIL then prev else prev[front := b])[b := NIL];
      Linked2(next[b := front], prev', b, if front == NIL then b else rear, [b] + q)
  {
    RevMembers(q);
    ChainPrepend(next, front, q, b);
    assert Rev([b] + q) == Rev(q) + [b];
    if q == [] {
      ChainAppendEmpty(prev, b);
      assert [b] + q == [b];
      assert Rev([b]) == [b];
    } else {
      Neighbours(next, prev, front, rear, q, 0);
      assert Rev(q)[|q| - 1] == q[0];
      ChainAppend(prev, rear, Rev(q), b);
    }
  }

  // ---------------------------------------------------------------------
  // Hash chains

  // The chain of bucket h lists the buffers whose block number falls there.
  ghost predicate Bucket(hash: seq<int>, head: int, chain: seq<int>, bufs: seq<Buf>, size: nat, h: int)
    requires size > 0
  {
    && Chain(hash, head, chain)
    && forall b :: b in chain <==> 0 <= b < |bufs| && bufs[b].block % size == h
  }

  ghost predicate Hashed(hash: seq<int>, heads: seq<int>, chains: seq<seq<int>>, bufs: seq<Buf>) {
    && |heads| == |chains| > 0 && |hash| == |bufs|
    && forall h :: 0 <= h < |heads| ==> Bucket(hash, heads[h], chains[h], bufs, |heads|, h)
  }

  // The chains without buffer b, which is about to get another block.
  ghost predicate BucketBut(hash: seq<int>, head: int, chain: seq<int>, bufs: seq<Buf>, size: nat, h: int, x: int)
    requires size > 0
  {
    && Chain(hash, head, chain)
    && forall b :: b in chain <==> 0 <= b < |bufs| && b != x && bufs[b].block % size == h
  }

  ghost predicate HashedBut(hash: seq<int>, heads: seq<int>, chains: seq<seq<int>>, bufs: seq<Buf>, x: int) {
    && |heads| == |chains| > 0 && |hash| == |bufs|
    && forall h :: 0 <= h < |heads| ==> BucketBut(hash, heads[h], chains[h], bufs, |heads|, h, x)
  }

  lemma ChainOther(hash: seq<int>, head: int, chain: seq<int>, x: int, v: int)
    requires Chain(hash, head, chain) && 0 <= x < |hash| && x !in chain
    ensures Chain(hash[x := v], head, chain)
  {
    forall i | 0 <= i < |chain| ensures hash[x := v][chain[i]] == hash[chain[i]] {
      assert chain[i] in chain;
    }
    ChainFrame(hash, hash[x := v], head, chain);
  }

  // Taking the member at i out of its bucket.
  lemma UnhashFront(hash: seq<int>, heads: seq<int>, chains: seq<seq<int>>, bufs: seq<Buf>, h: int)
    requires Hashed(hash, heads, chains, bufs) && 0 <= h < |heads| && chains[h] != []
    ensures var x := chains[h][0];
      && 0 <= x < |hash| && heads[h] == x
      && HashedBut(hash, heads[h := hash[x]], chains[h := RemoveAt(chains[h], 0)], bufs, x)
  {
    var x := chains[h][0];
    assert Bucket(hash, heads[h], chains[h], bufs, |heads|, h);
    assert x in chains[h];
    ChainTail(hash, heads[h], chains[h]);
    RemoveAtMembers(chains[h], 0);
    var heads', chains' := heads[h := hash[x]], chains[h := RemoveAt(chains[h], 0)];
    forall k | 0 <= k < |heads'| ensures BucketBut(hash, heads'[k], chains'[k], bufs, |heads|, k, x) {
      assert Bucket(hash, heads[k], chains[k], bufs, |heads|, k);
    }
  }

  lemma UnhashLater(hash: seq<int>, heads: seq<int>, chains: seq<seq<int>>, bufs: seq<Buf>, h: int, i: nat)
    requires Hashed(hash, heads, chains, bufs) && 0 <= h < |heads| && 0 < i < |chains[h]|
    ensures var x, p := chains[h][i], chains[h][i - 1];
      && 0 <= x < |hash| && 0 <= p < |hash|
      && HashedBut(hash[p := hash[x]], heads, chains[h := RemoveAt(chains[h], i)], bufs, x)
  {
    var x, p := chains[h][i], chains[h][i - 1];
    assert Bucket(hash, heads[h], chains[h], bufs, |heads|, h);
    assert x in chains[h] && p in chains[h];
    ChainUnlink(hash, heads[h], chains[h], i);
    RemoveAtMembers(chains[h], i);
    forall k | 0 <= k < |heads|
      ensures BucketBut(hash[p := hash[x]], heads[k], chains[h := RemoveAt(chains[h], i)][k], bufs, |heads|, k, x)
    {
      assert Bucket(hash, heads[k], chains[k], bufs, |heads|, k);
      if k != h {
        ChainOther(hash, heads[k], chains[k], p, hash[x]);
      }
    }
  }

  // Putting it at the front of the bucket of its new block.
  lemma Rehash(hash: seq<int>, heads: seq<int>, chains: seq<seq<int>>, bufs: seq<Buf>, bufs': seq<Buf>, x: int)
    requires HashedBut(hash, heads, chains, bufs, x) && 0 <= x < |hash| && |bufs'| == |bufs|
    requires forall b :: 0 <= b < |bufs| && b != x ==> bufs'[b].block == bufs[b].block
    ensures var h := bufs'[x].block % |heads|;
      Hashed(hash[x := heads[h]], heads[h := x], chains[h := [x] + chains[h]], bufs')
  {
    var h := bufs'[x].block % |heads|;
    var hash', heads', chains' := hash[x := heads[h]], heads[h := x], chains[h := [x] + chains[h]];
    forall k | 0 <= k < |heads'| ensures Bucket(hash', heads'[k], chains'[k], bufs', |heads|, k) {
      assert BucketBut(hash, heads[k], chains[k], bufs, |heads|, k, x);
      if k == h {
        ChainPrepend(hash, heads[h], chains[h], x);
      } else {
        ChainOther(hash, heads[k], chains[k], x, heads[h]);
      }
    }
  }

  // Only block numbers matter to the chains.
  lemma HashedFrame(hash: seq<int>, heads: seq<int>, chains: seq<seq<int>>, bufs: seq<Buf>, bufs': seq<Buf>)
    requires Hashed(hash, heads, chains, bufs) && |bufs'| == |bufs|
    requires forall b :: 0 <= b < |bufs| ==> bufs'[b].block == bufs[b].block
    ensures Hashed(hash, heads, chains, bufs')
  {
    forall h | 0 <= h < |heads| ensures Bucket(hash, heads[h], chains[h], bufs', |heads|, h) {
      assert Bucket(hash, heads[h], chains[h], bufs, |heads|, h);
    }
  }

  datatype Got = Panic | Buffer(b: nat)

  // buf_pool() links the table in order, in both directions.
  lemma InitialLists(next: seq<int>, prev: seq<int>, q: seq<int>)
    requires |next| == |prev| == |q| > 0
    requires forall i :: 0 <= i < |q| ==> q[i] == i
    requires forall i :: 0 <= i < |q| ==> next[i] == if i == |q| - 1 then NIL else i + 1
    requires forall i :: 0 <= i < |q| ==> prev[i] == i - 1
    ensures Linked2(next, prev, 0, |q| - 1, q)
  {
    var r := Rev(q);
    forall i | 0 <= i < |r| ensures prev[r[i]] == After(r, i) {
      assert r[i] == |q| - 1 - i;
    }
  }

  // ... and puts all of it on the chain of bucket 0, that of NO_BLOCK.
  lemma InitialChains(hash: seq<int>, heads: seq<int>, chains: seq<seq<int>>, bufs: seq<Buf>)
    requires |heads| == |chains| > 0 && |hash| == |bufs| > 0
    requires forall i :: 0 <= i < |bufs| ==> bufs[i].block == NO_BLOCK
    requires forall i :: 0 <= i < |bufs| ==> hash[i] == if i == |bufs| - 1 then NIL else i + 1
    requires heads[0] == 0 && |chains[0]| == |bufs| && forall i :: 0 <= i < |bufs| ==> chains[0][i] == i
    requires forall h :: 0 < h < |heads| ==> heads[h] == NIL && chains[h] == []
    ensures Hashed(hash, heads, chains, bufs)
  {
    forall h | 0 <= h < |heads| ensures Bucket(hash, heads[h], chains[h], bufs, |heads|, h) {
      forall b ensures b in chains[h] <==> 0 <= b < |bufs| && bufs[b].block % |heads| == h {
        if 0 <= b < |bufs| {
          assert bufs[b].block % |heads| == 0;
          assert chains[0][b] == b;
        }
      }
    }
  }

  // After i of n map blocks.
  ghost predicate MapsFrom(p0: Pool, p: Pool, dev: int, block: nat, n: nat, i: nat) {
    match p
    case Pool(bufs, _, _, _) =>
      && Shape(p0) && Coherent(p0) && BufsInUse(p0) + n <= |p0.bufs| && dev != NO_DEV && i <= n
      && Shape(p) && Coherent(p) && BufsInUse(p) + (n - i) <= |bufs|
      && MapsHeld(p, dev, block + i, n - i) == MapsHeld(p0, dev, block, n)
  }

  lemma MapsFromStart(p: Pool, dev: int, block: nat, n: nat)
    requires Shape(p) && Coherent(p) && BufsInUse(p) + n <= |p.bufs| && dev != NO_DEV
    ensures MapsFrom(p, p, dev, block, n, 0)
  {}

  lemma MapsFromNext(p0: Pool, p: Pool, dev: int, block: nat, n: nat, i: nat)
    requires MapsFrom(p0, p, dev, block, n, i) && i < n
    ensures Shape(p) && Coherent(p) && BufsInUse(p) < |p.bufs| && CanGet(p, Key(dev, block + i)) && dev != NO_DEV
    ensures MapsFrom(p0, Get(p, Key(dev, block + i), Normal).0, dev, block, n, i + 1)
  {
    GetKeeps(p, Key(dev, block + i), Normal);
    GetCounts(p, Key(dev, block + i), Normal);
  }

  class BufferCache {
    const buf: array<Buf>
    const bNext: array<int>
    const bPrev: array<int>
    const bHash: array<int>
    const bufHash: array<int>
    var front: int
    var rear: int
    var bufsInUse: int
    var disk: Disk

    ghost var lru: seq<int>
    ghost var chains: seq<seq<int>>
    ghost var reserved: nat

    // The pool the tables stand for.
    ghost function Abs(): Pool
      reads this, buf
    {
      Pool(buf[..], lru, reserved, disk)
    }

    ghost predicate Apart() {
      && bNext != bPrev && bNext != bHash && bNext != bufHash
      && bPrev != bHash && bPrev != bufHash && bHash != bufHash
    }

    ghost predicate Listed()
      reads this, buf, bNext, bPrev
    {
      && Apart()
      && bNext.Length == buf.Length
      && Shape(Abs())
      && Linked2(bNext[..], bPrev[..], front, rear, lru)
    }

    ghost predicate Chained()
      reads this, buf, bHash, bufHash
    {
      Apart() && Hashed(bHash[..], bufHash[..], chains, buf[..])
    }

    ghost predicate Valid()
      reads this, buf, bNext, bPrev, bHash, bufHash
    {
      Listed() && Chained() && bufsInUse == BufsInUse(Abs())
    }

    // buf_pool(): all buffers free, in table order on the list, and all on the
    // chain of NO_BLOCK.
    constructor (n: nat, hashSize: nat, disk: Disk)
      requires n > 0 && hashSize > 0
      ensures Valid() && Coherent(Abs()) && buf.Length == n && bufHash.Length == hashSize
      ensures fresh(buf) && fresh(bNext) && fresh(bPrev) && fresh(bHash) && fresh(bufHash)
      ensures Abs() == Fresh(n, disk)
    {
      front := 0;
      rear := n - 1;
      bufsInUse := 0;
      this.disk := disk;
      buf := new Buf[n](i => Buf(NO_DEV, 0, false, 0, false, []));
      bNext := new int[n](i => if i == n - 1 then NIL else i + 1);
      bPrev := new int[n]((i: int) => i - 1);
      bHash := new int[n](i => if i == n - 1 then NIL else i + 1);
      bufHash := new int[hashSize](i => if i == 0 then 0 else NIL);
      lru := seq(n, i => i);
      chains := seq(hashSize, i => if i == 0 then seq(n, j => j) else []);
      reserved := 0;
      new;
      assert buf[..] == Fresh(n, disk).bufs && lru == Fresh(n, disk).lru;
      FreshOk(n, disk);
      InitialLists(bNext[..], bPrev[..], lru);
      InitialChains(bHash[..], bufHash[..], chains, buf[..]);
    }

    // The search of get_block(): walk the hash chain of the block.
    method SearchHash(first: int, k: Key, ghost chain: seq<int>) returns (bp: int)
      requires forall i :: 0 <= i < |chain| ==>
                 0 <= chain[i] < bHash.Length && bHash[chain[i]] == After(chain, i) && chain[i] < buf.Length
      requires first == if chain == [] then NIL else chain[0]
      ensures bp == NIL ==> forall i :: 0 <= i < |chain| ==> !Holds(buf[chain[i]], k)
      ensures bp != NIL ==> bp in chain && 0 <= bp < buf.Length && Holds(buf[bp], k)
    {
      bp := first;
      ghost var i := 0;
      while bp != NIL
        invariant i <= |chain| && bp == if i < |chain| then chain[i] else NIL
        invariant forall j :: 0 <= j < i ==> !Holds(buf[chain[j]], k)
        decreases |chain| - i
      {
        if buf[bp].block == k.block && buf[bp].dev == k.dev {
          return;
        }
        bp := bHash[bp];
        i := i + 1;
      }
    }

    // The bucket of a block is the only place where it can be.
    lemma BucketOf(k: Key)
      requires Chained()
      ensures var h := k.block % bufHash.Length;
        && Bucket(bHash[..], bufHash[h], chains[h], buf[..], bufHash.Length, h)
        && (forall i :: 0 <= i < |chains[h]| ==>
              0 <= chains[h][i] < bHash.Length && bHash[chains[h][i]] == After(chains[h], i))
        && (forall b :: 0 <= b < buf.Length && Holds(buf[b], k) ==> b in chains[h])
    {
      var h := k.block % bufHash.Length;
      assert Bucket(bHash[..], bufHash[..][h], chains[h], buf[..], bufHash.Length, h);
      assert forall i :: 0 <= i < |chains[h]| ==> bHash[..][chains[h][i]] == After(chains[h], i);
    }

    // Look for the block of a device.
    method Lookup(k: Key) returns (bp: int)
      requires Valid() && OnePlace(Abs()) && k.dev != NO_DEV
      ensures bp != NIL ==> Cached(Abs(), k) && bp == Find(Abs().bufs, k)
      ensures bp == NIL ==> !Cached(Abs(), k)
    {
      BucketOf(k);
      bp := SearchHash(bufHash[k.block % bufHash.Length], k, chains[k.block % bufHash.Length]);
      if bp != NIL {
        FindUnique(Abs(), bp);
      } else {
        assert forall b :: 0 <= b < buf.Length ==> !Holds(Abs().bufs[b], k);
      }
    }

    // The eviction scan: from the front to the first buffer not in use, or the
    // last one.
    method ScanFree() returns (bp: int)
      requires Listed() && buf.Length > 0
      ensures 0 <= bp < buf.Length
      ensures InUse(Abs().bufs) < |Abs().bufs| ==> bp == Victim(Abs()) && buf[bp].count == 0
      ensures InUse(Abs().bufs) == |Abs().bufs| ==> buf[bp].count > 0
    {
      ghost var i := StartOfList();
      bp := front;
      while buf[bp].count > 0 && bNext[bp] != NIL
        invariant 0 <= i < |lru| && bp == lru[i] && 0 <= bp < buf.Length
        invariant forall j :: 0 <= j < |lru| ==> 0 <= lru[j] < buf.Length
        invariant forall j :: 0 <= j < i ==> buf[lru[j]].count > 0
        decreases |lru| - i
      {
        assert bNext[..][lru[i]] == After(lru, i);
        bp := bNext[bp];
        i := i + 1;
      }
      assert bNext[..][lru[i]] == After(lru, i);
      if InUse(Abs().bufs) < |Abs().bufs| {
        SomeFree(Abs());
        FirstFreeAt(buf[..], lru, i);
      } else if buf[bp].count <= 0 {
        OneFree(buf[..], bp);
      }
    }

    lemma StartOfList() returns (i: nat)
      requires Listed() && buf.Length > 0
      ensures i == 0 && lru != [] && front == lru[0]
      ensures forall j :: 0 <= j < |lru| ==> 0 <= lru[j] < buf.Length
    {
      i := 0;
      assert 0 in lru;
    }

    // Find the predecessor of bp on its hash chain.
    method HashBefore(bp: int, first: int, ghost chain: seq<int>) returns (prev: int, ghost i: nat)
      requires forall i :: 0 <= i < |chain| ==> 0 <= chain[i] < bHash.Length && bHash[chain[i]] == After(chain, i)
      requires chain != [] && chain[0] == first && first != bp && bp in chain
      ensures 0 < i < |chain| && chain[i] == bp && prev == chain[i - 1]
    {
      prev := first;
      i := 1;
      while bHash[prev] != NIL
        invariant 0 < i <= |chain| && prev == chain[i - 1]
        invariant forall j :: 0 <= j < i ==> chain[j] != bp
        decreases |chain| - i
      {
        if bHash[prev] == bp {
          return;
        }
        prev := bHash[prev];
        i := i + 1;
      }
      assert false;
    }

    // Remove a buffer from its hash chain.
    method Unhash(bp: nat)
      requires Chained() && bp < buf.Length
      modifies this`chains, bHash, bufHash
      ensures HashedBut(bHash[..], bufHash[..], chains, buf[..], bp)
    {
      var h := buf[bp].block % bufHash.Length;
      BucketOf(KeyOf(buf[bp]));
      ghost var chain := chains[h];
      ghost var hash0, heads0 := bHash[..], bufHash[..];
      if bufHash[h] == bp {
        UnhashFront(hash0, heads0, chains, buf[..], h);
        bufHash[h] := bHash[bp];
        chains := chains[h := RemoveAt(chain, 0)];
        assert bufHash[..] == heads0[h := hash0[bp]];
      } else {
        var prev;
        ghost var i;
        prev, i := HashBefore(bp, bufHash[h], chain);
        UnhashLater(hash0, heads0, chains, buf[..], h, i);
        bHash[prev] := bHash[bp];
        chains := chains[h := RemoveAt(chain, i)];
        assert bHash[..] == hash0[prev := hash0[bp]];
      }
    }

    // rw_block(WRITING), on a device that does not fail
    method WriteBlock(bp: nat)
      requires bp < buf.Length
      modifies this`disk, buf
      ensures Abs() == WriteBack(old(Abs()), bp)
    {
      if buf[bp].dev != NO_DEV {
        disk := disk[KeyOf(buf[bp]) := buf[bp].data];
      }
      buf[bp] := buf[bp].(dirt := false);
    }

    // Put a buffer on the chain of its block.
    method Hash(bp: nat, ghost bufs: seq<Buf>)
      requires bp < buf.Length && bHash != bufHash && |bufs| == buf.Length
      requires HashedBut(bHash[..], bufHash[..], chains, bufs, bp)
      requires forall b :: 0 <= b < buf.Length && b != bp ==> buf[b].block == bufs[b].block
      modifies this`chains, bHash, bufHash
      ensures Hashed(bHash[..], bufHash[..], chains, buf[..])
    {
      var h := buf[bp].block % bufHash.Length;
      ghost var hash0, heads0 := bHash[..], bufHash[..];
      Rehash(hash0, heads0, chains, bufs, buf[..], bp);
      bHash[bp] := bufHash[h];
      bufHash[h] := bp;
      chains := chains[h := [bp] + chains[h]];
      assert bHash[..] == hash0[bp := heads0[h]] && bufHash[..] == heads0[h := bp];
    }

    // The fields of a buffer that gets a new block, and the read from disk.
    method Fill(bp: nat, k: Key, mode: Mode)
      requires bp < buf.Length
      modifies this`disk, buf
      ensures Abs() == Reassign(old(Abs()), bp, k, mode)
    {
      if buf[bp].dirt && buf[bp].dev != NO_DEV {
        WriteBlock(bp);
      }
      buf[bp] := buf[bp].(dev := k.dev, block := k.block, count := buf[bp].count + 1);
      if k.dev != NO_DEV {
        if mode == Normal {
          buf[bp] := buf[bp].(data := DiskAt(disk, k), dirt := false);
        } else {
          buf[bp] := buf[bp].(blank := true);
        }
      }
    }

    // Give a free buffer to another block.
    method Take(bp: nat, k: Key, mode: Mode)
      requires Listed() && Chained() && bp < buf.Length && buf[bp].count == 0
      requires bufsInUse == BufsInUse(Abs()) + 1
      modifies this`disk, this`chains, buf, bHash, bufHash
      ensures Valid() && Abs() == Reassign(old(Abs()), bp, k, mode)
    {
      ghost var bufs := buf[..];
      Unhash(bp);
      Fill(bp, k, mode);
      assert buf[..] == bufs[bp := buf[bp]];
      InUseUpdate(bufs, bp, buf[bp]);
      Hash(bp, bufs);
    }

    // get_block()
    method GetBlock(k: Key, mode: Mode) returns (r: Got)
      requires Valid() && OnePlace(Abs()) && buf.Length > 0
      modifies this`disk, this`chains, this`bufsInUse, buf, bHash, bufHash
      ensures r == Panic <==> !CanGet(old(Abs()), k)
      ensures r != Panic ==> Valid() && (Abs(), r.b) == Get(old(Abs()), k, mode)
    {
      if k.dev != NO_DEV {
        var bp := Lookup(k);
        if bp != NIL {
          Hold(bp);
          return Buffer(bp);
        }
      }
      if bufsInUse == buf.Length {
        return Panic;
      }
      bufsInUse := bufsInUse + 1;
      var bp := ScanFree();
      if buf[bp].count > 0 {
        return Panic;
      }
      Take(bp, k, mode);
      return Buffer(bp);
    }

    // One map block, held from now on.
    method HoldMap(k: Key) returns (b: nat)
      requires Valid() && Coherent(Abs()) && BufsInUse(Abs()) < buf.Length && k.dev != NO_DEV
      modifies this`disk, this`chains, this`bufsInUse, buf, bHash, bufHash
      ensures Valid() && CanGet(old(Abs()), k) && (Abs(), b) == Get(old(Abs()), k, Normal)
    {
      var got := GetBlock(k, Normal);
      b := got.b;
    }

    // n map blocks; first is the buffer of the first one.
    method HoldMaps(dev: int, block: nat, n: nat) returns (first: nat)
      requires Valid() && Coherent(Abs()) && BufsInUse(Abs()) + n <= buf.Length && dev != NO_DEV && n > 0
      modifies this`disk, this`chains, this`bufsInUse, buf, bHash, bufHash
      ensures Valid() && Abs() == MapsHeld(old(Abs()), dev, block, n)
      ensures first == Get(old(Abs()), Key(dev, block), Normal).1
    {
      ghost var p0 := Abs();
      MapsFromStart(p0, dev, block, n);
      MapsFromNext(p0, p0, dev, block, n, 0);
      first := HoldMap(Key(dev, block));
      ghost var p := Get(p0, Key(dev, block), Normal).0;
      var i := 1;
      while i < n
        invariant 1 <= i <= n && Valid() && Abs() == p
        invariant MapsFrom(p0, p, dev, block, n, i)
      {
        MapsFromNext(p0, p, dev, block, n, i);
        var b := HoldMap(Key(dev, block + i));
        p := Get(p, Key(dev, block + i), Normal).0;
        i := i + 1;
      }
    }

    // Set the busy bits of the map block in a buffer.
    method SetBusy(b: nat, n: nat)
      requires Valid() && b < buf.Length
      modifies buf
      ensures Valid() && Abs() == Mark(old(Abs()), b, Busied(old(buf[b]).data, n))
    {
      ghost var bufs := buf[..];
      buf[b] := buf[b].(data := Busied(buf[b].data, n));
      assert buf[..] == bufs[b := buf[b]];
      InUseUpdate(bufs, b, buf[b]);
      HashedFrame(bHash[..], bufHash[..], chains, bufs, buf[..]);
    }

    // load_bit_maps(): the blocks of the inode map and of the zone map, which
    // follow the super block, are held, and counted once more than that.
    method LoadBitMaps(dev: int, imaps: nat, zmaps: nat) returns (r: Loaded)
      requires Valid() && Coherent(Abs()) && dev != NO_DEV && imaps > 0 && zmaps > 0
      modifies this`disk, this`chains, this`bufsInUse, this`reserved, buf, bHash, bufHash
      ensures Valid()
      ensures r == TooFewBuffers <==> !CanLoad(old(Abs()), imaps + zmaps)
      ensures r == TooFewBuffers <==> old(bufsInUse) + imaps + zmaps >= buf.Length - 3
      ensures r == PanicTooMany <==> CanLoad(old(Abs()), imaps + zmaps) && (imaps > I_MAP_SLOTS || zmaps > ZMAP_SLOTS)
      ensures r == Loaded <==> Loads(old(Abs()), dev, imaps, zmaps)
      ensures Abs() == if r == Loaded then LoadMaps(old(Abs()), dev, imaps, zmaps) else old(Abs())
    {
      hide LoadMaps, Coherent, Shape, Hashed, Linked2, InUse;
      if bufsInUse + imaps + zmaps >= buf.Length - 3 {
        return TooFewBuffers;
      }
      if imaps > I_MAP_SLOTS || zmaps > ZMAP_SLOTS {
        return PanicTooMany;
      }
      HoldMarked(dev, imaps, zmaps);
      bufsInUse := bufsInUse + imaps + zmaps;
      reserved := reserved + imaps + zmaps;
      return Loaded;
    }

    // The map blocks, held and marked, not yet counted again.
    method HoldMarked(dev: int, imaps: nat, zmaps: nat)
      requires Valid() && Loads(Abs(), dev, imaps, zmaps)
      modifies this`disk, this`chains, this`bufsInUse, buf, bHash, bufHash
      ensures Valid()
      ensures Abs().(reserved := reserved + imaps + zmaps) == LoadMaps(old(Abs()), dev, imaps, zmaps)
    {
      hide Valid, Loads, LoadMaps, BothHeld, Find, Busied;
      MarkedBoth(Abs(), dev, imaps, zmaps);
      var ifirst, zfirst := HoldBoth(dev, imaps, zmaps);
      SetBusy(ifirst, INODE_BITS);
      SetBusy(zfirst, ZONE_BITS);
    }

    method HoldBoth(dev: int, imaps: nat, zmaps: nat) returns (ifirst: nat, zfirst: nat)
      requires Valid() && Loads(Abs(), dev, imaps, zmaps)
      modifies this`disk, this`chains, this`bufsInUse, buf, bHash, bufHash
      ensures Valid() && Abs() == BothHeld(old(Abs()), dev, imaps, zmaps)
      ensures ifirst == Find(Abs().bufs, InodeMap(dev)) && zfirst == Find(Abs().bufs, ZoneMap(dev, imaps))
      ensures ifirst < buf.Length && zfirst < buf.Length
    {
      ghost var p := Abs();
      FoundBoth(p, dev, imaps, zmaps);
      ifirst := HoldMaps(dev, SUPER_BLOCK + 1, imaps);
      zfirst := HoldMaps(dev, SUPER_BLOCK + 1 + imaps, zmaps);
    }

    // One more user of a cached block.
    method Hold(bp: nat)
      requires Valid() && bp < buf.Length
      modifies this`bufsInUse, buf
      ensures Valid()
      ensures Abs() == old(Abs()).(bufs := old(buf[..])[bp := old(buf[bp]).(count := old(buf[bp]).count + 1)])
    {
      ghost var bufs := buf[..];
      if buf[bp].count == 0 {
        bufsInUse := bufsInUse + 1;
      }
      buf[bp] := buf[bp].(count := buf[bp].count + 1);
      InUseUpdate(bufs, bp, buf[bp]);
      HashedFrame(bHash[..], bufHash[..], chains, bufs, buf[..]);
      assert buf[..] == bufs[bp := buf[bp]];
    }

    // Take a buffer off the list.
    method Unlink(bp: nat)
      requires bNext != bPrev && Linked2(bNext[..], bPrev[..], front, rear, lru) && bp in lru
      modifies this`lru, this`front, this`rear, bNext, bPrev
      ensures Linked2(bNext[..], bPrev[..], front, rear, lru)
      ensures lru == Remove(old(lru), bp) && bp !in lru && bp < bNext.Length
    {
      RemoveMembers(lru, bp);
      UnlinkAt(bp, IndexOf(lru, bp));
      lru := Remove(lru, bp);
    }

    method UnlinkAt(bp: nat, ghost i: nat)
      requires bNext != bPrev && Linked2(bNext[..], bPrev[..], front, rear, lru) && i < |lru| && lru[i] == bp
      modifies this`front, this`rear, bNext, bPrev
      ensures Linked2(bNext[..], bPrev[..], front, rear, RemoveAt(lru, i)) && bp < bNext.Length
    {
      Unlink2(bNext[..], bPrev[..], front, rear, lru, i);
      Join(bNext[bp], bPrev[bp]);
    }

    // Make two neighbours, or ends of the list, point at each other.
    method Join(nextPtr: int, prevPtr: int)
      requires bNext != bPrev && (prevPtr == NIL || 0 <= prevPtr < bNext.Length)
      requires nextPtr == NIL || 0 <= nextPtr < bPrev.Length
      modifies this`front, this`rear, bNext, bPrev
      ensures bNext[..] == if prevPtr != NIL then old(bNext[..])[prevPtr := nextPtr] else old(bNext[..])
      ensures bPrev[..] == if nextPtr != NIL then old(bPrev[..])[nextPtr := prevPtr] else old(bPrev[..])
      ensures front == if prevPtr != NIL then old(front) else nextPtr
      ensures rear == if nextPtr != NIL then old(rear) else prevPtr
    {
      if prevPtr != NIL {
        bNext[prevPtr] := nextPtr;
      } else {
        front := nextPtr;
      }
      if nextPtr != NIL {
        bPrev[nextPtr] := prevPtr;
      } else {
        rear := prevPtr;
      }
    }

    method LinkFront(bp: nat)
      requires bNext != bPrev && Linked2(bNext[..], bPrev[..], front, rear, lru) && bp !in lru && bp < bNext.Length
      modifies this`lru, this`front, this`rear, bNext, bPrev
      ensures Linked2(bNext[..], bPrev[..], front, rear, lru) && lru == [bp] + old(lru)
    {
      ghost var next0, prev0, front0 := bNext[..], bPrev[..], front;
      AtFront2(next0, prev0, front, rear, lru, bp);
      bPrev[bp] := NIL;
      bNext[bp] := front;
      if front == NIL {
        rear := bp;
      } else {
        bPrev[front] := bp;
      }
      front := bp;
      lru := [bp] + lru;
      assert front0 != NIL ==> front0 != bp by {
        if front0 != NIL { assert old(lru)[0] in old(lru); }
      }
      assert bPrev[..] == (if front0 == NIL then prev0 else prev0[front0 := bp])[bp := NIL];
    }

    method LinkRear(bp: nat)
      requires bNext != bPrev && Linked2(bNext[..], bPrev[..], front, rear, lru) && bp !in lru && bp < bNext.Length
      modifies this`lru, this`front, this`rear, bNext, bPrev
      ensures Linked2(bNext[..], bPrev[..], front, rear, lru) && lru == old(lru) + [bp]
    {
      ghost var next0, prev0, rear0 := bNext[..], bPrev[..], rear;
      AtRear2(next0, prev0, front, rear, lru, bp);
      assert rear0 != NIL ==> rear0 != bp by {
        if rear0 != NIL { assert Rev(lru)[0] in Rev(lru); RevMembers(lru); }
      }
      bPrev[bp] := rear;
      bNext[bp] := NIL;
      if rear == NIL {
        front := bp;
      } else {
        bNext[rear] := bp;
      }
      rear := bp;
      lru := lru + [bp];
      assert bNext[..] == (if rear0 == NIL then next0 else next0[rear0 := bp])[bp := NIL];
    }

    // The last user is gone: move the buffer to one end of the list.
    method Relink(bp: nat, oneShot: bool)
      requires Valid() && bp < buf.Length
      modifies this`lru, this`front, this`rear, bNext, bPrev
      ensures Valid() && Abs() == old(Abs()).(lru := Relinked(old(lru), bp, oneShot))
    {
      assert bp in lru;
      RelinkedMembers(lru, bp, oneShot);
      Unlink(bp);
      if oneShot {
        LinkFront(bp);
      } else {
        LinkRear(bp);
      }
    }

    // Change the header or the data of a buffer, but not its block.
    method SetBuf(bp: nat, f: Buf)
      requires Valid() && bp < buf.Length && f.block == buf[bp].block && f.count == buf[bp].count
      modifies buf
      ensures Valid() && Abs() == old(Abs()).(bufs := old(buf[..])[bp := f])
    {
      ghost var bufs := buf[..];
      buf[bp] := f;
      assert buf[..] == bufs[bp := f];
      InUseUpdate(bufs, bp, f);
      HashedFrame(bHash[..], bufHash[..], chains, bufs, buf[..]);
    }

    method Lower(bp: nat) returns (free: bool)
      requires Valid() && bp < buf.Length && buf[bp].count > 0
      modifies this`bufsInUse, buf
      ensures Valid()
      ensures Abs() == old(Abs()).(bufs := old(buf[..])[bp := old(buf[bp]).(count := old(buf[bp]).count - 1)])
      ensures free <==> buf[bp].count <= 0
    {
      ghost var bufs := buf[..];
      buf[bp] := buf[bp].(count := buf[bp].count - 1);
      free := buf[bp].count <= 0;
      if free {
        bufsInUse := bufsInUse - 1;
      }
      assert buf[..] == bufs[bp := buf[bp]];
      InUseUpdate(bufs, bp, buf[bp]);
      HashedFrame(bHash[..], bufHash[..], chains, bufs, buf[..]);
    }

    method WriteThrough(bp: nat)
      requires Valid() && bp < buf.Length
      modifies this`disk, buf
      ensures Valid() && Abs() == WriteBack(old(Abs()), bp)
    {
      ghost var bufs := buf[..];
      WriteBlock(bp);
      InUseUpdate(bufs, bp, buf[bp]);
      HashedFrame(bHash[..], bufHash[..], chains, bufs, buf[..]);
      assert buf[..] == bufs[bp := buf[bp]];
    }

    // put_block()
    method PutBlock(bp: int, how: Release)
      requires Valid() && (bp == NIL || (0 <= bp < buf.Length && buf[bp].count > 0))
      modifies this, buf, bNext, bPrev
      ensures Valid()
      ensures Abs() == if bp == NIL then old(Abs()) else Put(old(Abs()), bp, how)
    {
      if bp == NIL {
        return;
      }
      var free := Lower(bp);
      if !free {
        return;
      }
      Relink(bp, how.oneShot);
      if how.writeImmed && buf[bp].dirt && buf[bp].dev != NO_DEV {
        WriteThrough(bp);
      }
      if how.zuper {
        SetBuf(bp, buf[bp].(dev := NO_DEV));
      }
    }

    // A holder writes his block.
    method EditBlock(bp: nat, data: Block)
      requires Valid() && bp < buf.Length
      modifies buf
      ensures Valid() && Abs() == Edit(old(Abs()), bp, data)
    {
      SetBuf(bp, buf[bp].(data := data, dirt := true, blank := false));
    }

    // invalidate()
    method Invalidate(device: int)
      requires Valid()
      modifies buf
      ensures Valid() && Abs() == BufferPool.Invalidate(old(Abs()), device)
    {
      ghost var bufs := buf[..];
      var bp := 0;
      while bp < buf.Length
        invariant 0 <= bp <= buf.Length && Valid() && Abs().disk == old(Abs()).disk
        invariant forall b :: 0 <= b < buf.Length ==> buf[b] == if b < bp then Dropped(bufs[b], device) else bufs[b]
      {
        if buf[bp].dev == device {
          SetBuf(bp, buf[bp].(dev := NO_DEV));
        }
        bp := bp + 1;
      }
    }

    // One of the two passes of do_sync() over the buffers.
    method FlushPass(zero: bool)
      requires Valid()
      modifies this`disk, buf
      ensures Valid() && Abs() == FlushFrom(old(Abs()), 0, zero)
    {
      var bp := 0;
      while bp < buf.Length
        invariant 0 <= bp <= buf.Length && Valid()
        invariant FlushFrom(Abs(), bp, zero) == FlushFrom(old(Abs()), 0, zero)
      {
        var d := buf[bp].dev;
        if d != NO_DEV && buf[bp].dirt && DriveZero(d) == zero {
          WriteThrough(bp);
        }
        bp := bp + 1;
      }
    }

    // The end of do_sync(): drive 0 first, then the rest.
    method FlushBlocks()
      requires Valid()
      modifies this`disk, buf
      ensures Valid() && Abs() == Flush(old(Abs()))
    {
      FlushPass(true);
      FlushPass(false);
    }
  }

  lemma {:induction false} FirstFreeAt(bufs: seq<Buf>, lru: seq<int>, i: nat)
    requires forall j :: 0 <= j < |lru| ==> 0 <= lru[j] < |bufs|
    requires i < |lru| && FirstFree(bufs, lru) < |lru|
    requires forall j :: 0 <= j < i ==> bufs[lru[j]].count > 0
    requires bufs[lru[i]].count <= 0 || i == |lru| - 1
    ensures FirstFree(bufs, lru) == i
  {}

  lemma {:induction false} OneFree(bufs: seq<Buf>, b: nat)
    requires b < |bufs| && bufs[b].count <= 0
    ensures InUse(bufs) < |bufs|
  {
    if b > 0 {
      OneFree(bufs[1..], b - 1);
    }
  }
}
