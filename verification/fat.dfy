// DOS diskettes: a file is a chain of clusters, linked through packed
// twelve-bit entries of the file allocation table.

module Fat {
  const LAST_CLUSTER := 0xFFF
  const FREE := 0x000
  const BAD := 0xFF0

  type Table = seq<int>

  // A table of bytes with room for all entries up to number top.
  ghost predicate IsTable(fat: Table, top: nat) {
    top / 2 * 3 + 2 < |fat| && forall i :: 0 <= i < |fat| ==> 0 <= fat[i] < 0x100
  }

  // The byte that entry cl shares with its neighbour.
  function Middle(cl: nat): nat {
    cl / 2 * 3 + 1
  }

  // The twelve bits of entry cl.
  function Entry(fat: Table, cl: nat): int
    requires Middle(cl) + 1 < |fat|
  {
    var m := Middle(cl);
    if cl % 2 == 1 then fat[m + 1] * 16 + fat[m] / 16 else fat[m] % 16 * 256 + fat[m - 1]
  }

  // next_cluster(): the reserved values at the top are all BAD or all LAST.
  function NextCluster(fat: Table, cl: nat): int
    requires Middle(cl) + 1 < |fat|
  {
    var e := Entry(fat, cl);
    if e >= 0xFF8 then LAST_CLUSTER else if e >= 0xFF0 then BAD else e
  }

  // Entry cl is the same in both tables.
  ghost predicate SameEntry(fat: Table, fat': Table, cl: nat) {
    Middle(cl) + 1 < |fat| == |fat'| && Entry(fat', cl) == Entry(fat, cl)
  }

  // Three bytes hold two entries, low bits first.
  lemma PackedEntries(fat: Table, k: nat)
    requires 3 * k + 2 < |fat| && forall i :: 0 <= i < |fat| ==> 0 <= fat[i] < 0x100
    ensures Middle(2 * k) + 1 < |fat| && Middle(2 * k + 1) + 1 < |fat|
    ensures 0 <= Entry(fat, 2 * k) < 0x1000 && 0 <= Entry(fat, 2 * k + 1) < 0x1000
    ensures Entry(fat, 2 * k) + 0x1000 * Entry(fat, 2 * k + 1) ==
            fat[3 * k] + 0x100 * fat[3 * k + 1] + 0x10000 * fat[3 * k + 2]
  {}

  // Values whose low three bits do not count end a chain or tell of a bad
  // cluster; any other is the next cluster.
  lemma ClusterValues(fat: Table, cl: nat)
    requires Middle(cl) + 1 < |fat| && forall i :: 0 <= i < |fat| ==> 0 <= fat[i] < 0x100
    ensures var e, n := Entry(fat, cl), NextCluster(fat, cl);
      && 0 <= e <= 0xFFF
      && (n == LAST_CLUSTER <==> e - e % 8 == 0xFF8) && (n == BAD <==> e - e % 8 == 0xFF0)
      && (n != LAST_CLUSTER && n != BAD ==> n == e < 0xFF0)
  {}

  // Cluster cl is in use, or not usable.
  ghost predicate InUse(fat: Table, cl: nat) {
    Middle(cl) + 1 < |fat| && NextCluster(fat, cl) != FREE
  }

  // The table after link_fat().
  function Linked(fat: Table, cl1: nat, cl2: nat): (r: Table)
    requires Middle(cl1) + 1 < |fat|
    ensures |r| == |fat|
  {
    var m := Middle(cl1);
    if cl1 % 2 == 1 then fat[m + 1 := cl2 / 16][m := fat[m] % 16 + cl2 % 16 * 16]
    else fat[m - 1 := cl2 % 256][m := fat[m] / 16 * 16 + cl2 / 256]
  }

  lemma Nibbles(b: nat, n: nat)
    requires b < 0x100 && n < 16
    ensures (b % 16 + n * 16) / 16 == n && (b % 16 + n * 16) % 16 == b % 16
    ensures (b / 16 * 16 + n) / 16 == b / 16 && (b / 16 * 16 + n) % 16 == n
  {}

  // The entry itself.
  lemma LinkedSame(fat: Table, top: nat, cl1: nat, cl2: nat)
    requires IsTable(fat, top) && cl1 <= top && cl2 <= 0xFFF
    ensures Middle(cl1) + 1 < |fat| && IsTable(Linked(fat, cl1, cl2), top)
    ensures Entry(Linked(fat, cl1, cl2), cl1) == cl2
  {
    InTable(top, cl1);
    Nibbles(fat[Middle(cl1)], if cl1 % 2 == 1 then cl2 % 16 else cl2 / 256);
  }

  // The neighbour that shares a byte with it.
  lemma LinkedNeighbour(fat: Table, top: nat, cl1: nat, cl2: nat, cl: nat)
    requires IsTable(fat, top) && cl1 <= top && cl <= top && cl2 <= 0xFFF && cl / 2 == cl1 / 2 && cl != cl1
    ensures Middle(cl1) + 1 < |fat| && Entry(Linked(fat, cl1, cl2), cl) == Entry(fat, cl)
  {
    InTable(top, cl1);
    Nibbles(fat[Middle(cl1)], if cl1 % 2 == 1 then cl2 % 16 else cl2 / 256);
  }

  // Exactly one entry changes.
  lemma LinkedEntry(fat: Table, top: nat, cl1: nat, cl2: nat, cl: nat)
    requires IsTable(fat, top) && cl1 <= top && cl <= top && cl2 <= 0xFFF
    ensures Middle(cl1) + 1 < |fat| && Middle(cl) + 1 < |fat|
    ensures IsTable(Linked(fat, cl1, cl2), top)
    ensures Entry(Linked(fat, cl1, cl2), cl) == if cl == cl1 then cl2 else Entry(fat, cl)
  {
    InTable(top, cl);
    LinkedSame(fat, top, cl1, cl2);
    if cl / 2 == cl1 / 2 && cl != cl1 {
      LinkedNeighbour(fat, top, cl1, cl2, cl);
    }
  }

  lemma InTable(top: nat, cl: nat)
    requires cl <= top
    ensures Middle(cl) + 1 <= top / 2 * 3 + 2
  {}

  // ---------------------------------------------------------------------
  // Chains

  // The entry of cluster i of a chain names the next one.
  ghost predicate LinksTo(fat: Table, q: seq<int>, i: int, last: int)
    requires 0 <= i < |q| && q[i] >= 0
  {
    Middle(q[i]) + 1 < |fat| && NextCluster(fat, q[i]) == if i + 1 < |q| then q[i + 1] else last
  }

  // Clusters linked one to the next; last tells what ends the chain.
  ghost predicate Chain(fat: Table, top: nat, q: seq<int>, last: int) {
    && IsTable(fat, top) && q != []
    && (forall i :: 0 <= i < |q| ==> 2 <= q[i] <= top)
    && (forall i {:trigger LinksTo(fat, q, i, last)} :: 0 <= i < |q| ==> LinksTo(fat, q, i, last))
  }

  type Clusters = seq<seq<int>>

  ghost predicate IsDisk(disk: Clusters, top: nat, size: nat) {
    size > 0 && |disk| == top + 1 && forall i :: 0 <= i <= top ==> |disk[i]| == size
  }

  // The bytes of some clusters, one after the other.
  ghost function Joined(disk: Clusters, q: seq<int>): seq<int>
    requires forall i :: 0 <= i < |q| ==> 0 <= q[i] < |disk|
  {
    if q == [] then [] else Joined(disk, q[..|q| - 1]) + disk[q[|q| - 1]]
  }

  lemma {:induction false} JoinedSize(disk: Clusters, top: nat, size: nat, q: seq<int>)
    requires IsDisk(disk, top, size) && forall i :: 0 <= i < |q| ==> 0 <= q[i] <= top
    ensures |Joined(disk, q)| == |q| * size
  {
    if q != [] {
      JoinedSize(disk, top, size, q[..|q| - 1]);
      MulSucc(|q|, size);
    }
  }

  lemma JoinedMore(disk: Clusters, q: seq<int>, c: int)
    requires (forall i :: 0 <= i < |q| ==> 0 <= q[i] < |disk|) && 0 <= c < |disk|
    ensures Joined(disk, q + [c]) == Joined(disk, q) + disk[c]
  {
    assert (q + [c])[..|q|] == q;
  }

  // Longer chains begin with the same bytes.
  lemma {:induction false} JoinedPrefix(disk: Clusters, q: seq<int>, n: nat)
    requires n <= |q| && forall i :: 0 <= i < |q| ==> 0 <= q[i] < |disk|
    ensures Joined(disk, q[..n]) <= Joined(disk, q)
    decreases |q|
  {
    if n < |q| {
      JoinedPrefix(disk, q[..|q| - 1], n);
      assert q[..|q| - 1][..n] == q[..n];
    } else {
      assert q[..n] == q;
    }
  }

  // Other clusters do not matter.
  lemma {:induction false} JoinedFrame(disk: Clusters, q: seq<int>, c: int, data: seq<int>)
    requires (forall i :: 0 <= i < |q| ==> 0 <= q[i] < |disk|) && 0 <= c < |disk| && c !in q
    ensures Joined(disk[c := data], q) == Joined(disk, q)
    decreases |q|
  {
    if q != [] {
      JoinedFrame(disk, q[..|q| - 1], c, data);
    }
  }

  // ---------------------------------------------------------------------
  // Writing and reading a file

  // Clusters q, all free before, hold the first size bytes of the input now.
  // Nothing else has changed.
  ghost predicate Stored(fat: Table, disk: Clusters, fat': Table, disk': Clusters, top: nat, csize: nat,
                         q: seq<int>, size: nat, input: seq<int>) {
    && IsTable(fat, top) && IsTable(fat', top) && IsDisk(disk, top, csize) && IsDisk(disk', top, csize)
    && size <= |input| && (size == 0 <==> q == [])
    && (forall i :: 0 <= i < |q| ==> 2 <= q[i] <= top && Middle(q[i]) + 1 < |fat| && Entry(fat, q[i]) == FREE)
    && (forall i, j :: 0 <= i < j < |q| ==> q[i] < q[j])
    && (forall c: nat :: c <= top && c !in q ==> SameEntry(fat, fat', c) && disk'[c] == disk[c])
    && (q != [] ==> Chain(fat', top, q, LAST_CLUSTER))
    && (|q| - 1) * csize < size <= |q| * csize
    && input[..size] <= Joined(disk', q)
  }

  datatype Outcome = Done | TooManyClusters | PrematureEof(left: nat) | ReservedValue

  // What reading gives for a chain of clusters and a size.
  ghost predicate Extracted(disk: Clusters, csize: nat, q: seq<int>, last: int, size: nat, out: seq<int>, r: Outcome)
    requires forall i :: 0 <= i < |q| ==> 0 <= q[i] < |disk|
  {
    if size <= (|q| - 1) * csize then
      size <= |Joined(disk, q)| && out == Joined(disk, q)[..size] && r == TooManyClusters
    else if size <= |q| * csize then
      && size <= |Joined(disk, q)| && out == Joined(disk, q)[..size]
      && r == if last == LAST_CLUSTER then Done else ReservedValue
    else
      out == Joined(disk, q) && r == if last == LAST_CLUSTER then PrematureEof(size - |q| * csize) else ReservedValue
  }

  // Reading gives back what was written.
  lemma RoundTrip(fat: Table, disk: Clusters, fat': Table, disk': Clusters, top: nat, csize: nat,
                  q: seq<int>, size: nat, input: seq<int>, out: seq<int>, r: Outcome)
    requires Stored(fat, disk, fat', disk', top, csize, q, size, input) && q != []
    requires Extracted(disk', csize, q, LAST_CLUSTER, size, out, r)
    ensures out == input[..size] && r == Done
  {
    JoinedSize(disk', top, csize, q);
  }

  // Files that were there are as they were.
  lemma OtherChains(fat: Table, disk: Clusters, fat': Table, disk': Clusters, top: nat, csize: nat,
                    q: seq<int>, size: nat, input: seq<int>, other: seq<int>, last: int)
    requires Stored(fat, disk, fat', disk', top, csize, q, size, input)
    requires Chain(fat, top, other, last) && last != FREE
    ensures Chain(fat', top, other, last) && Joined(disk', other) == Joined(disk, other)
    ensures forall i :: 0 <= i < |other| ==> other[i] !in q
  {
    forall i | 0 <= i < |other|
      ensures other[i] !in q && disk'[other[i]] == disk[other[i]]
      ensures LinksTo(fat', other, i, last)
    {
      assert LinksTo(fat, other, i, last);
      NotFree(fat, top, q, other[i]);
      LinkKept(fat, fat', other, i, last);
    }
    SameJoined(disk, disk', other);
  }

  lemma LinkKept(fat: Table, fat': Table, q: seq<int>, i: nat, last: int)
    requires i < |q| && q[i] >= 0 && LinksTo(fat, q, i, last) && SameEntry(fat, fat', q[i])
    ensures LinksTo(fat', q, i, last)
  {}

  lemma NotFree(fat: Table, top: nat, q: seq<int>, c: int)
    requires 0 <= c && Middle(c) + 1 < |fat| && NextCluster(fat, c) != FREE
    requires forall i :: 0 <= i < |q| ==> 2 <= q[i] <= top && Middle(q[i]) + 1 < |fat| && Entry(fat, q[i]) == FREE
    ensures c !in q
  {}

  lemma {:induction false} SameJoined(disk: Clusters, disk': Clusters, q: seq<int>)
    requires |disk'| == |disk| && forall i :: 0 <= i < |q| ==> 0 <= q[i] < |disk| && disk'[q[i]] == disk[q[i]]
    ensures Joined(disk', q) == Joined(disk, q)
    decreases |q|
  {
    if q != [] {
      SameJoined(disk, disk', q[..|q| - 1]);
    }
  }

  // ---------------------------------------------------------------------
  // While a file is being written

  ghost predicate Follows(fat: Table, q: seq<int>, i: int)
    requires 0 <= i < |q| - 1 && q[i] >= 0
  {
    Middle(q[i]) + 1 < |fat| && Entry(fat, q[i]) == q[i + 1]
  }

  // Clusters q, in increasing order and free before, are linked, but for the
  // last one; the other entries are as before.
  ghost predicate Links(fat0: Table, fat: Table, top: nat, q: seq<int>) {
    && IsTable(fat0, top) && IsTable(fat, top)
    && (forall i :: 0 <= i < |q| ==> 2 <= q[i] <= top && Middle(q[i]) + 1 < |fat0| && Entry(fat0, q[i]) == FREE)
    && (forall i, j :: 0 <= i < j < |q| ==> q[i] < q[j])
    && (forall c: nat {:trigger SameEntry(fat0, fat, c)} :: c <= top && (c !in q || c == q[|q| - 1]) ==>
      SameEntry(fat0, fat, c))
    && (forall i {:trigger Follows(fat, q, i)} :: 0 <= i < |q| - 1 ==> Follows(fat, q, i))
  }

  // They hold the first size bytes of the input; no other cluster has changed.
  ghost predicate Holds(disk0: Clusters, disk: Clusters, top: nat, csize: nat, q: seq<int>, size: nat,
                        input: seq<int>) {
    && IsDisk(disk0, top, csize) && IsDisk(disk, top, csize)
    && (forall i :: 0 <= i < |q| ==> 2 <= q[i] <= top)
    && (forall c: nat {:trigger disk[c]} :: c <= top && c !in q ==> disk[c] == disk0[c])
    && size <= |input| && (size == 0 <==> q == []) && (|q| - 1) * csize < size <= |q| * csize
    && input[..size] <= Joined(disk, q)
  }

  lemma StartFile(fat0: Table, disk0: Clusters, top: nat, csize: nat, input: seq<int>)
    requires IsTable(fat0, top) && IsDisk(disk0, top, csize)
    ensures Links(fat0, fat0, top, []) && Holds(disk0, disk0, top, csize, [], 0, input)
  {
    forall c: nat | c <= top ensures SameEntry(fat0, fat0, c) {
      InTable(top, c);
    }
  }

  // The next cluster of a chain being read.
  lemma ReadOn(disk: Clusters, top: nat, csize: nat, q: seq<int>, i: nat)
    requires IsDisk(disk, top, csize) && i < |q| && forall k :: 0 <= k < |q| ==> 0 <= q[k] <= top
    ensures Joined(disk, q[..i + 1]) == Joined(disk, q[..i]) + disk[q[i]] && |disk[q[i]]| == csize
    ensures Joined(disk, q[..i + 1]) <= Joined(disk, q)
    ensures |Joined(disk, q[..i])| == i * csize && |Joined(disk, q[..i + 1])| == i * csize + csize
    ensures q[..|q|] == q && |Joined(disk, q)| == |q| * csize
  {
    assert q[..i + 1][..i] == q[..i];
    JoinedPrefix(disk, q, i + 1);
    JoinedSize(disk, top, csize, q[..i]);
    JoinedSize(disk, top, csize, q[..i + 1]);
    JoinedSize(disk, top, csize, q);
    MulSucc(i, csize);
  }

  // What has been read when cluster i of a chain has been.
  lemma ReadEnd(disk: Clusters, top: nat, csize: nat, q: seq<int>, end: int, dSize: nat, i: nat, size: nat)
    requires IsDisk(disk, top, csize) && i < |q| && forall k :: 0 <= k < |q| ==> 0 <= q[k] <= top
    requires 0 < size == dSize - i * csize && (end == LAST_CLUSTER || end == BAD)
    ensures var rest := if size > csize then csize else size;
      var out := Joined(disk, q[..i]) + disk[q[i]][..rest];
      var left := size - rest;
      && (left == 0 && i + 1 < |q| ==> Extracted(disk, csize, q, end, dSize, out, TooManyClusters))
      && (i + 1 == |q| && end == BAD ==> Extracted(disk, csize, q, end, dSize, out, ReservedValue))
      && (i + 1 == |q| && end == LAST_CLUSTER ==>
            Extracted(disk, csize, q, end, dSize, out, if left != 0 then PrematureEof(left) else Done))
  {
    ReadOn(disk, top, csize, q, i);
    MulMore(i + 1, |q|, csize);
    var rest := if size > csize then csize else size;
    var out := Joined(disk, q[..i]) + disk[q[i]][..rest];
    assert out == Joined(disk, q[..i + 1])[..i * csize + rest];
    assert out == Joined(disk, q)[..i * csize + rest];
    MulSucc(|q|, csize);
  }

  lemma MulMore(a: nat, b: nat, k: nat)
    requires a <= b
    ensures a * k <= b * k && (a < b ==> a * k <= (b - 1) * k)
  {
    assert (b - a) * k >= 0;
    assert a < b ==> (b - 1 - a) * k >= 0;
  }

  // One more cluster, linked to the last.
  function Extended(fat: Table, q: seq<int>, c: nat): Table
    requires q != [] ==> q[|q| - 1] >= 0 && Middle(q[|q| - 1]) + 1 < |fat|
  {
    if q == [] then fat else Linked(fat, q[|q| - 1], c)
  }

  // All entries but the last one.
  lemma ExtendedEntries(fat0: Table, fat: Table, top: nat, q: seq<int>, c: nat)
    requires Links(fat0, fat, top, q) && c <= 0xFFF
    ensures q != [] ==> 0 <= q[|q| - 1] <= top && Middle(q[|q| - 1]) + 1 < |fat| && q[|q| - 1] in q
    ensures forall i :: 0 <= i < |q| ==> q[i] <= q[|q| - 1]
    ensures var fat' := Extended(fat, q, c);
      && IsTable(fat', top)
      && (q != [] ==> Entry(fat', q[|q| - 1]) == c)
      && forall d: nat :: d <= top && (q == [] || d != q[|q| - 1]) ==> SameEntry(fat, fat', d)
  {
    var fat' := Extended(fat, q, c);
    if q != [] {
      var l := q[|q| - 1];
      InTable(top, l);
      LinkedSame(fat, top, l, c);
    }
    forall d: nat | d <= top && (q == [] || d != q[|q| - 1]) ensures SameEntry(fat, fat', d) {
      InTable(top, d);
      if q != [] {
        LinkedEntry(fat, top, q[|q| - 1], c, d);
      }
    }
  }

  // A fresh cluster is linked to the last one.
  lemma GrowLinks(fat0: Table, fat: Table, top: nat, q: seq<int>, c: nat)
    requires Links(fat0, fat, top, q) && top < BAD
    requires 2 <= c <= top && Middle(c) + 1 < |fat0| && Entry(fat0, c) == FREE && (q != [] ==> q[|q| - 1] < c)
    ensures q != [] ==> q[|q| - 1] >= 0 && Middle(q[|q| - 1]) + 1 < |fat|
    ensures Links(fat0, Extended(fat, q, c), top, q + [c])
  {
    ExtendedEntries(fat0, fat, top, q, c);
    var fat', q' := Extended(fat, q, c), q + [c];
    forall d: nat | d <= top && (d !in q' || d == c) ensures SameEntry(fat0, fat', d) {
      assert d !in q;
      assert SameEntry(fat0, fat, d) && SameEntry(fat, fat', d);
    }
    forall i | 0 <= i < |q'| - 1 ensures Follows(fat', q', i) {
      assert q'[i] == q[i];
      assert i < |q| - 1 ==> SameEntry(fat, fat', q[i]) && Follows(fat, q, i);
    }
  }

  lemma MulSucc(n: nat, k: nat)
    ensures (n + 1) * k == n * k + k && (n - 1) * k == n * k - k
  {}

  // A chunk goes into a fresh cluster; only the last chunk may be short.
  lemma GrowData(disk0: Clusters, disk: Clusters, top: nat, csize: nat, q: seq<int>, size: nat, input: seq<int>,
                 c: nat, chunk: seq<int>)
    requires Holds(disk0, disk, top, csize, q, size, input) && 2 <= c <= top && c !in q && size == |q| * csize
    requires 0 < |chunk| <= csize && size + |chunk| <= |input| && chunk == input[size..size + |chunk|]
    ensures Holds(disk0, disk[c := chunk + disk[c][|chunk|..]], top, csize, q + [c], size + |chunk|, input)
  {
    var data := chunk + disk[c][|chunk|..];
    JoinedSize(disk, top, csize, q);
    JoinedFrame(disk, q, c, data);
    JoinedMore(disk[c := data], q, c);
    MulSucc(|q|, csize);
    assert input[..size] == Joined(disk, q);
    assert input[..size + |chunk|] == input[..size] + chunk;
  }

  // The last entry closes the chain.
  lemma GrowEnd(fat0: Table, disk0: Clusters, fat: Table, disk: Clusters, top: nat, csize: nat,
                q: seq<int>, size: nat, input: seq<int>)
    requires Links(fat0, fat, top, q) && Holds(disk0, disk, top, csize, q, size, input) && top < BAD
    ensures q != [] ==> q[|q| - 1] >= 0 && Middle(q[|q| - 1]) + 1 < |fat|
    ensures Stored(fat0, disk0, Extended(fat, q, LAST_CLUSTER), disk, top, csize, q, size, input)
  {
    ExtendedEntries(fat0, fat, top, q, LAST_CLUSTER);
    var fat' := Extended(fat, q, LAST_CLUSTER);
    forall d: nat | d <= top && d !in q ensures SameEntry(fat0, fat', d) {
      assert SameEntry(fat0, fat, d) && SameEntry(fat, fat', d);
    }
    forall i | 0 <= i < |q| ensures LinksTo(fat', q, i, LAST_CLUSTER) {
      assert i < |q| - 1 ==> q[i] < q[|q| - 1] && SameEntry(fat, fat', q[i]) && Follows(fat, q, i);
    }
  }

  // The diskette as it was when a file was begun, and what is to go into it.
  datatype Job = Job(fat0: Table, disk0: Clusters, lo: nat, input: seq<int>)

  class Diskette {
    // The last cluster number, and the bytes of a cluster.
    const totalClusters: nat
    const clusterSize: nat
    const fat: array<int>
    const disk: array<seq<int>>
    // Where free_cluster() goes on searching.
    var clIndex: nat

    ghost predicate Valid()
      reads this, fat, disk
    {
      && 2 <= totalClusters < BAD && clIndex >= 2
      && IsTable(fat[..], totalClusters) && IsDisk(disk[..], totalClusters, clusterSize)
    }

    // A diskette as it is found.
    constructor (table: Table, clusters: Clusters, totalClusters: nat, clusterSize: nat)
      requires 2 <= totalClusters < BAD && IsTable(table, totalClusters) && IsDisk(clusters, totalClusters, clusterSize)
      ensures Valid() && fat[..] == table && disk[..] == clusters && clIndex == 2
      ensures this.totalClusters == totalClusters && this.clusterSize == clusterSize
    {
      this.totalClusters, this.clusterSize := totalClusters, clusterSize;
      fat := new int[|table|](i requires 0 <= i < |table| => table[i]);
      disk := new seq<int>[|clusters|](i requires 0 <= i < |clusters| => clusters[i]);
      clIndex := 2;
      new;
      assert fat[..] == table && disk[..] == clusters;
    }

    // link_fat(): two bytes are changed in place.
    method LinkFat(cl1: nat, cl2: nat)
      requires Middle(cl1) + 1 < fat.Length
      modifies fat
      ensures fat[..] == Linked(old(fat[..]), cl1, cl2)
    {
      var m := cl1 / 2 * 3 + 1;
      if cl1 % 2 == 1 {
        fat[m + 1] := cl2 / 16;
        fat[m] := fat[m] % 16 + cl2 % 16 * 16;
      } else {
        fat[m - 1] := cl2 % 256;
        fat[m] := fat[m] / 16 * 16 + cl2 / 256;
      }
    }

    // free_cluster(): the next free cluster, or a number past the last one.
    method FreeCluster() returns (cl: nat)
      requires Valid()
      modifies this
      ensures Valid() && clIndex == cl + 1 && cl >= old(clIndex)
      ensures cl <= totalClusters ==> Middle(cl) + 1 < fat.Length && Entry(fat[..], cl) == FREE
      ensures forall c: nat {:trigger InUse(fat[..], c)} :: old(clIndex) <= c < cl && c <= totalClusters ==>
        InUse(fat[..], c)
    {
      while clIndex <= totalClusters && Used(clIndex)
        invariant Valid() && clIndex >= old(clIndex)
        invariant forall c: nat {:trigger InUse(fat[..], c)} :: old(clIndex) <= c < clIndex && c <= totalClusters ==>
          InUse(fat[..], c)
      {
        clIndex := clIndex + 1;
      }
      if clIndex <= totalClusters {
        InTable(totalClusters, clIndex);
      }
      cl := clIndex;
      clIndex := clIndex + 1;
    }

    predicate Used(cl: nat)
      requires Valid() && cl <= totalClusters
      reads this, fat, disk
      ensures Middle(cl) + 1 < fat.Length && (Used(cl) <==> InUse(fat[..], cl))
    {
      InTable(totalClusters, cl);
      NextCluster(fat[..], cl) != FREE
    }

    // fill(): the next bytes of the input, a cluster full of them at most.
    method Fill(input: seq<int>, pos: nat) returns (buffer: seq<int>)
      requires Valid() && pos <= |input|
      ensures pos + |buffer| <= |input| && buffer == input[pos..pos + |buffer|]
      ensures |buffer| == if |input| - pos < clusterSize then |input| - pos else clusterSize
    {
      buffer := [];
      while |buffer| < clusterSize && pos + |buffer| < |input|
        invariant pos + |buffer| <= |input| && |buffer| <= clusterSize && buffer == input[pos..pos + |buffer|]
      {
        buffer := buffer + [input[pos + |buffer|]];
      }
    }

    // disk_write() of the beginning of a cluster.
    method WriteCluster(cl: nat, buffer: seq<int>)
      requires cl < disk.Length && |buffer| <= |disk[cl]|
      modifies disk
      ensures disk[..] == old(disk[..])[cl := buffer + old(disk[cl])[|buffer|..]]
    {
      disk[cl] := buffer + disk[cl][|buffer|..];
    }

    // One turn of the loop in make_file(): the buffer goes into cluster next.
    method Append(next: nat, buffer: seq<int>, first: nat, last: nat, ghost fat0: Table, ghost disk0: Clusters,
                  ghost q: seq<int>, ghost size: nat, ghost input: seq<int>)
      requires Valid() && Links(fat0, fat[..], totalClusters, q)
      requires Holds(disk0, disk[..], totalClusters, clusterSize, q, size, input) && size == |q| * clusterSize
      requires 2 <= next <= totalClusters && Middle(next) + 1 < |fat0| && Entry(fat0, next) == FREE
      requires if q == [] then first == 0 else first == q[0] && last == q[|q| - 1] < next
      requires 0 < |buffer| <= clusterSize && size + |buffer| <= |input| && buffer == input[size..size + |buffer|]
      modifies fat, disk
      ensures Valid() && Links(fat0, fat[..], totalClusters, q + [next])
      ensures Holds(disk0, disk[..], totalClusters, clusterSize, q + [next], size + |buffer|, input)
    {
      GrowLinks(fat0, fat[..], totalClusters, q, next);
      assert next !in q by {
        assert forall i :: 0 <= i < |q| ==> q[i] <= q[|q| - 1];
      }
      GrowData(disk0, disk[..], totalClusters, clusterSize, q, size, input, next, buffer);
      WriteCluster(next, buffer);
      if first != 0 {
        LinkFat(last, next);
      }
    }

    // One turn of the loop in make_file().
    method StoreNext(buffer: seq<int>, first: nat, last: nat, ghost lo: nat, ghost fat0: Table, ghost disk0: Clusters,
                     ghost q: seq<int>, ghost size: nat, ghost input: seq<int>)
      returns (next: nat)
      requires Valid() && Links(fat0, fat[..], totalClusters, q)
      requires Holds(disk0, disk[..], totalClusters, clusterSize, q, size, input) && size == |q| * clusterSize
      requires if q == [] then first == 0 else first == q[0] && last == q[|q| - 1] < clIndex
      requires 0 < |buffer| <= clusterSize && size + |buffer| <= |input| && buffer == input[size..size + |buffer|]
      requires lo <= clIndex && NoneFree(fat0, lo, clIndex, q)
      modifies this, fat, disk
      ensures Valid() && lo <= clIndex && next < clIndex
      ensures next > totalClusters ==>
        && fat[..] == old(fat[..]) && disk[..] == old(disk[..]) && NoneFree(fat0, lo, clIndex, q)
        && next >= old(clIndex)
      ensures next <= totalClusters ==>
        && next >= 2 && Links(fat0, fat[..], totalClusters, q + [next]) && NoneFree(fat0, lo, clIndex, q + [next])
        && Holds(disk0, disk[..], totalClusters, clusterSize, q + [next], size + |buffer|, input)
    {
      next := NextFree(fat0, lo, q);
      if next <= totalClusters {
        Append(next, buffer, first, last, fat0, disk0, q, size, input);
        forall c: nat {:trigger InUse(fat0, c)} | lo <= c < clIndex && c <= totalClusters && c !in q + [next]
          ensures InUse(fat0, c)
        {
          assert c !in q && c != next;
        }
      }
    }

    // Part of the input has been stored in clusters q, linked but for the end.
    ghost predicate HalfDone(job: Job, start: nat, last: nat, q: seq<int>, size: nat)
      reads this, fat, disk
    {
      match job
      case Job(fat0, disk0, lo, input) =>
        && Valid() && Links(fat0, fat[..], totalClusters, q)
        && Holds(disk0, disk[..], totalClusters, clusterSize, q, size, input)
        && (if q == [] then start == 0 else start == q[0] && last == q[|q| - 1] < clIndex)
        && lo <= clIndex && NoneFree(fat0, lo, clIndex, q)
    }

    // Buffer r is to be stored next, and is short only at the end of the input.
    ghost predicate Next(job: Job, q: seq<int>, size: nat, r: seq<int>) {
      match job
      case Job(_, _, _, input) =>
        && (r != [] ==> size == |q| * clusterSize)
        && size + |r| <= |input| && r == input[size..size + |r|] && |r| <= clusterSize
        && (|r| < clusterSize ==> size + |r| == |input|)
    }

    // One turn of the loop.
    method Turn(input: seq<int>, r: seq<int>, start: nat, last: nat, size: nat, ghost job: Job, ghost q: seq<int>)
      returns (next: nat, start': nat, r': seq<int>)
      requires HalfDone(job, start, last, q, size) && Next(job, q, size, r) && r != [] && job.input == input
      modifies this, fat, disk
      ensures next > totalClusters ==> HalfDone(job, start, last, q, size) && next < clIndex
      ensures next <= totalClusters ==>
        size + |r| <= |input| && HalfDone(job, start', next, q + [next], size + |r|)
          && Next(job, q + [next], size + |r|, r')
    {
      hide Links, Holds, NoneFree;
      next := StoreNext(r, start, last, job.lo, job.fat0, job.disk0, q, size, input);
      start' := if start == 0 then next else start;
      r' := [];
      if next <= totalClusters {
        MulSucc(|q|, clusterSize);
        r' := Fill(input, size + |r|);
      }
    }

    // The loop in make_file().
    method StoreAll(input: seq<int>) returns (start: nat, last: nat, size: nat, full: bool, ghost q: seq<int>)
      requires Valid()
      modifies this, fat, disk
      ensures HalfDone(Job(old(fat[..]), old(disk[..]), old(clIndex), input), start, last, q, size)
      ensures !full ==> size == |input|
      ensures full ==> size < |input| && clIndex > totalClusters + 1
    {
      hide Links, Holds;
      ghost var job := Job(fat[..], disk[..], clIndex, input);
      start, last, size, full := 0, 0, 0, false;
      q := [];
      StartFile(fat[..], disk[..], totalClusters, clusterSize, input);
      var r := Fill(input, size);
      while r != []
        invariant HalfDone(job, start, last, q, size) && Next(job, q, size, r)
        decreases |input| - size
      {
        var next, start', r' := Turn(input, r, start, last, size, job, q);
        if next > totalClusters {
          full := true;
          return;
        }
        q := q + [next];
        size := size + |r|;
        start, last, r := start', next, r';
      }
    }

    // make_file(): the bytes go into free clusters, as many as there are.
    method MakeFile(input: seq<int>) returns (start: nat, size: nat, full: bool, ghost q: seq<int>)
      requires Valid()
      modifies this, fat, disk
      ensures Valid()
      ensures Stored(old(fat[..]), old(disk[..]), fat[..], disk[..], totalClusters, clusterSize, q, size, input)
      ensures start == if q == [] then 0 else q[0]
      ensures !full ==> size == |input|
      ensures full ==> size < |input| && NoneFree(old(fat[..]), old(clIndex), totalClusters + 1, q)
    {
      var last: nat;
      start, last, size, full, q := StoreAll(input);
      GrowEnd(old(fat[..]), old(disk[..]), fat[..], disk[..], totalClusters, clusterSize, q, size, input);
      if start != 0 {
        LinkFat(last, LAST_CLUSTER);
      }
    }

    // From lo to hi no cluster but those of q is free.
    ghost predicate NoneFree(fat0: Table, lo: nat, hi: nat, q: seq<int>) {
      forall c: nat {:trigger InUse(fat0, c)} :: lo <= c < hi && c <= totalClusters && c !in q ==> InUse(fat0, c)
    }

    // free_cluster() again, seen from the table as it was at first.
    method NextFree(ghost fat0: Table, ghost lo: nat, ghost q: seq<int>) returns (next: nat)
      requires Valid() && Links(fat0, fat[..], totalClusters, q) && (q != [] ==> q[|q| - 1] < clIndex)
      requires lo <= clIndex && NoneFree(fat0, lo, clIndex, q)
      modifies this
      ensures Valid() && clIndex == next + 1 && next >= old(clIndex) && NoneFree(fat0, lo, next, q)
      ensures next <= totalClusters ==> Middle(next) + 1 < |fat0| && Entry(fat0, next) == FREE
    {
      next := FreeCluster();
      assert forall i :: 0 <= i < |q| ==> q[i] <= q[|q| - 1];
      forall c: nat {:trigger InUse(fat0, c)} | lo <= c < next && c <= totalClusters && c !in q
        ensures InUse(fat0, c)
      {
        assert SameEntry(fat0, fat[..], c);
        assert old(clIndex) <= c ==> InUse(fat[..], c);
      }
      assert next <= totalClusters ==> next !in q && SameEntry(fat0, fat[..], next);
    }

    // extract(): follow the chain for as many bytes as the entry says.
    method Extract(start: nat, dSize: nat, ghost q: seq<int>, ghost end: int) returns (out: seq<int>, r: Outcome)
      requires Valid()
      requires dSize > 0 ==>
        Chain(fat[..], totalClusters, q, end) && q[0] == start && (end == LAST_CLUSTER || end == BAD)
      ensures dSize == 0 ==> out == [] && r == Done
      ensures dSize > 0 ==> Extracted(disk[..], clusterSize, q, end, dSize, out, r)
    {
      out := [];
      if dSize == 0 {
        return [], Done;
      }
      var size, cl := dSize, start;
      ghost var i := 0;
      while true
        invariant 0 <= i < |q| && cl == q[i] && size > 0 && size + |out| == dSize
        invariant out == Joined(disk[..], q[..i]) && |out| == i * clusterSize
        decreases |q| - i
      {
        var rest := if size > clusterSize then clusterSize else size;
        ReadOn(disk[..], totalClusters, clusterSize, q, i);
        ReadEnd(disk[..], totalClusters, clusterSize, q, end, dSize, i, size);
        assert LinksTo(fat[..], q, i, end);
        assert disk[..][q[i]] == disk[cl];
        out := out + disk[cl][..rest];
        size := size - rest;
        var next := NextCluster(fat[..], cl);
        if next == BAD {
          return out, ReservedValue;
        }
        if size == 0 || next == LAST_CLUSTER {
          r := if next != LAST_CLUSTER then TooManyClusters else if size != 0 then PrematureEof(size) else Done;
          return;
        }
        assert rest == clusterSize && disk[cl][..rest] == disk[cl];
        cl := next;
        i := i + 1;
      }
    }
  }
}
