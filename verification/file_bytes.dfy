// A file as a sequence of bytes.

module FileBytes {
  import opened Basics
  import opened Blocks
  import opened ZoneTree
  import opened FileBlocks

  // ---------------------------------------------------------------------
  // Positions

  lemma DivUnique(n: nat, d: nat, q: nat, r: nat)
    requires d > 0 && n == q * d + r && r < d
    ensures n / d == q && n % d == r
  {
    var p := n / d;
    if p < q {
      MulGrows(p, q, d);
    } else if p > q {
      MulGrows(q, p, d);
    }
  }

  // Zones are made of whole blocks.
  lemma DivDiv(n: nat, b: nat, s: nat)
    requires b > 0 && s > 0
    ensures b * s > 0 && n / (b * s) == n / b / s && n % (b * s) / b == n / b % s
  {
    var m := n / b;
    var q, r, t := m / s, m % s, n % b;
    MulLe(r + 1, s, b);
    MulGrows(0, s, b);
    assert (r + 1) * b == r * b + b;
    assert n == (q * s + r) * b + t;
    assert (q * s + r) * b == q * (b * s) + r * b by {
      assert q * s * b == q * (b * s);
    }
    DivUnique(n, b * s, q, r * b + t);
    DivUnique(r * b + t, b, r, t);
  }

  lemma DivMono(a: nat, b: nat, d: nat)
    requires a <= b && d > 0
    ensures a / d <= b / d
  {
    if a / d > b / d {
      MulGrows(b / d, a / d, d);
    }
  }

  lemma DivAtLeast(a: nat, q: nat, d: nat)
    requires q * d <= a && d > 0
    ensures a / d >= q
  {
    if a / d < q {
      MulGrows(a / d, q, d);
    }
  }

  // position/BLOCK_SIZE
  function BlockNr(g: Geo, j: nat): nat
    requires g.Valid()
  {
    j / g.bs
  }

  // Where the block of position j begins.
  function BlockStart(g: Geo, j: nat): (s: nat)
    requires g.Valid()
    ensures s <= j < s + g.bs
  {
    j - j % g.bs
  }

  lemma BlockStartIs(g: Geo, j: nat)
    requires g.Valid()
    ensures BlockStart(g, j) == BlockNr(g, j) * g.bs
  {}

  lemma BlockOrder(g: Geo, j: nat, p: nat)
    requires g.Valid()
    ensures BlockNr(g, j) == BlockNr(g, p) ==> BlockStart(g, j) == BlockStart(g, p)
    ensures BlockNr(g, j) < BlockNr(g, p) ==> BlockStart(g, j) + g.bs <= BlockStart(g, p)
  {
    if BlockNr(g, j) < BlockNr(g, p) {
      MulGrows(BlockNr(g, j), BlockNr(g, p), g.bs);
    }
  }

  // A position that a zone tree can reach.
  predicate Reach(g: Geo, j: nat)
    requires g.Valid()
  {
    InReach(g, BlockNr(g, j))
  }

  // Everything below a size that the tree has room for can be reached.
  lemma ReachBelow(g: Geo, lim: nat)
    requires g.Valid() && lim <= g.MaxZones() * g.ZoneBytes()
    ensures forall j :: 0 <= j < lim ==> Reach(g, j)
  {
    forall j | 0 <= j < lim ensures Reach(g, j) {
      DivDiv(j, g.bs, g.spz);
      if j / g.ZoneBytes() >= g.MaxZones() {
        MulLe(g.MaxZones(), j / g.ZoneBytes(), g.ZoneBytes());
      }
    }
  }

  // Relative zone of a position.
  function ZoneNr(g: Geo, j: nat): nat
    requires g.Valid()
  {
    BlockNr(g, j) / g.spz
  }

  // ---------------------------------------------------------------------
  // Contents

  function Byte(g: Geo, store: Store, ino: Inode, j: nat): int
    requires g.Valid() && |ino.zone| == NR_ZONE_NUMS
  {
    var b := FileBlock(g, store, ino, BlockNr(g, j));
    if j % g.bs < |b| then b[j % g.bs] else 0
  }

  function Contents(g: Geo, store: Store, ino: Inode): (c: seq<int>)
    requires g.Valid() && |ino.zone| == NR_ZONE_NUMS
    ensures |c| == ino.size && forall j :: 0 <= j < ino.size ==> c[j] == Byte(g, store, ino, j)
  {
    seq(ino.size, j requires 0 <= j < ino.size => Byte(g, store, ino, j))
  }

  // Part of a block is a part of the contents.
  lemma BlockSlice(g: Geo, store: Store, ino: Inode, p: nat, m: nat)
    requires g.Valid() && |ino.zone| == NR_ZONE_NUMS && p + m <= ino.size && p % g.bs + m <= g.bs
    requires |FileBlock(g, store, ino, BlockNr(g, p))| == g.bs
    ensures FileBlock(g, store, ino, BlockNr(g, p))[p % g.bs..p % g.bs + m] == Contents(g, store, ino)[p..p + m]
  {
    var off := p % g.bs;
    var b := FileBlock(g, store, ino, BlockNr(g, p))[off..off + m];
    var c := Contents(g, store, ino)[p..p + m];
    forall i | 0 <= i < m ensures b[i] == c[i] {
      InBlock(g, p, i);
    }
  }

  lemma InBlock(g: Geo, p: nat, i: nat)
    requires g.Valid() && p % g.bs + i < g.bs
    ensures BlockNr(g, p + i) == BlockNr(g, p) && (p + i) % g.bs == p % g.bs + i
  {
    BlockStartIs(g, p);
    DivUnique(p + i, g.bs, BlockNr(g, p), p % g.bs + i);
  }

  // ---------------------------------------------------------------------
  // Where the bytes of a file are on the device

  // Entry i of an indirect block, low byte first.
  predicate HasEntry(b: Block, i: nat, z: int) {
    2 * i + 1 < |b| && z == b[2 * i] + 256 * b[2 * i + 1]
  }

  // Block o of a zone is on the device.
  predicate OnDevice(g: Geo, store: Store, z: int, o: nat) {
    0 <= z && 0 <= z * g.spz + o < |store|
  }

  // Block bi of a file is block o of its zone zi.
  predicate IsBlockOf(g: Geo, bi: nat, zi: nat, o: nat) {
    o < g.spz && bi == zi * g.spz + o
  }

  function At(g: Geo, store: Store, z: int, o: nat): Block
    requires OnDevice(g, store, z, o)
  {
    if z == 0 then Zeros(g.bs) else store[z * g.spz + o]
  }

  // The first seven zones: the inode names them.
  lemma DirectBlock(g: Geo, store: Store, ino: Inode, bi: nat, zi: nat, o: nat)
    requires g.Valid() && |ino.zone| == 9 && zi < 7 && IsBlockOf(g, bi, zi, o) && OnDevice(g, store, ino.zone[zi], o)
    ensures FileBlock(g, store, ino, bi) == At(g, store, ino.zone[zi], o)
  {
    DivUnique(bi, g.spz, zi, o);
    NotBlockZero(ino.zone[zi], g.spz, o);
  }

  // The next ones: the block in zone 7 of the inode names them.
  lemma SingleBlock(g: Geo, store: Store, ino: Inode, bi: nat, i: nat, o: nat, z: int)
    requires g.Valid() && |ino.zone| == 9 && i < g.bs / 2 && IsBlockOf(g, bi, 7 + i, o)
    requires 0 < ino.zone[7] && OnDevice(g, store, ino.zone[7], 0) && HasEntry(At(g, store, ino.zone[7], 0), i, z)
    requires OnDevice(g, store, z, o)
    ensures FileBlock(g, store, ino, bi) == At(g, store, z, o)
  {
    DivUnique(bi, g.spz, 7 + i, o);
    NotBlockZero(z, g.spz, o);
    assert Entry(g, store, ino.zone[7], i) == z;
  }

  // The rest: the block in zone 8 of the inode names the blocks that name them.
  lemma DoubleBlock(g: Geo, store: Store, ino: Inode, bi: nat, k: nat, i: nat, j: nat, o: nat, w: int, z: int)
    requires g.Valid() && |ino.zone| == 9 && i < g.bs / 2 && j < g.bs / 2 && k == i * (g.bs / 2) + j
    requires IsBlockOf(g, bi, 7 + g.bs / 2 + k, o)
    requires 0 < ino.zone[8] && OnDevice(g, store, ino.zone[8], 0) && HasEntry(At(g, store, ino.zone[8], 0), i, w)
    requires 0 < w && OnDevice(g, store, w, 0) && HasEntry(At(g, store, w, 0), j, z)
    requires OnDevice(g, store, z, o)
    ensures FileBlock(g, store, ino, bi) == At(g, store, z, o)
  {
    DivUnique(bi, g.spz, 7 + g.bs / 2 + k, o);
    DivUnique(k, g.bs / 2, i, j);
    NotBlockZero(z, g.spz, o);
    assert Entry(g, store, ino.zone[8], i) == w && Entry(g, store, w, j) == z;
  }

  lemma NotBlockZero(z: int, n: nat, o: nat)
    requires n > 0
    ensures z > 0 ==> z * n + o > 0
  {
    if z > 0 {
      MulGrows(0, z, n);
    }
  }

  // Byte j of a file is byte j % bs of its block j / bs.
  lemma ByteAt(g: Geo, store: Store, ino: Inode, j: nat)
    requires g.Valid() && |ino.zone| == NR_ZONE_NUMS && j < ino.size && |FileBlock(g, store, ino, j / g.bs)| == g.bs
    ensures Contents(g, store, ino)[j] == FileBlock(g, store, ino, j / g.bs)[j % g.bs]
  {}

  // Old contents, zero-extended to pos, with data laid over it there.
  function Spliced(c: seq<int>, pos: nat, data: seq<int>): (r: seq<int>) {
    var base := if pos <= |c| then c else c + Zeros(pos - |c|);
    base[..pos] + data + if pos + |data| <= |base| then base[pos + |data|..] else []
  }

  lemma SplicedAt(c: seq<int>, pos: nat, data: seq<int>, j: nat)
    requires j < |Spliced(c, pos, data)|
    ensures |Spliced(c, pos, data)| == if pos + |data| <= |c| then |c| else pos + |data|
    ensures Spliced(c, pos, data)[j] ==
            if pos <= j < pos + |data| then data[j - pos] else if j < |c| then c[j] else 0
  {}

  // At most n bytes from position p on.
  function Slice(c: seq<int>, p: nat, n: nat): seq<int> {
    if p >= |c| then [] else if p + n <= |c| then c[p..p + n] else c[p..]
  }

  lemma SliceAt(c: seq<int>, p: nat, n: nat, i: nat)
    ensures |Slice(c, p, n)| == if p + n <= |c| then n else if p <= |c| then |c| - p else 0
    ensures i < |Slice(c, p, n)| ==> Slice(c, p, n)[i] == c[p + i]
  {}

  function Max(a: nat, b: nat): nat {
    if a > b then a else b
  }

  lemma SplicedSize(c: seq<int>, pos: nat, data: seq<int>)
    ensures |Spliced(c, pos, data)| == Max(|c|, pos + |data|)
  {}

  // What was written is what is read back, and nothing else has changed.
  lemma ReadBack(c: seq<int>, pos: nat, data: seq<int>)
    ensures Slice(Spliced(c, pos, data), pos, |data|) == data
    ensures pos <= |c| ==> Slice(Spliced(c, pos, data), 0, pos) == c[..pos]
    ensures pos > |c| ==> Slice(Spliced(c, pos, data), 0, pos) == c + Zeros(pos - |c|)
    ensures pos + |data| <= |c| ==> Slice(Spliced(c, pos, data), pos + |data|, |c|) == c[pos + |data|..]
  {
    SplicedSize(c, pos, data);
  }

  // ---------------------------------------------------------------------
  // What holds of a file between system calls

  // No zone is mapped past the end.
  ghost predicate MappedBelow(g: Geo, store: Store, ino: Inode, end: nat)
    requires g.Valid() && |ino.zone| == NR_ZONE_NUMS
  {
    forall zi: nat {:trigger ZoneOf(g, store, ino, zi)} ::
      zi < g.MaxZones() && ZoneOf(g, store, ino, zi) != NO_ZONE ==> zi * g.ZoneBytes() < end
  }

  // The rest of the last block is zero, as far as lim.
  ghost predicate TailZero(g: Geo, store: Store, ino: Inode, end: nat, lim: nat)
    requires g.Valid() && |ino.zone| == NR_ZONE_NUMS
  {
    forall j: nat {:trigger Byte(g, store, ino, j)} ::
      BlockStart(g, j) < end <= j < lim ==> Byte(g, store, ino, j) == 0
  }

  // Everything from end to lim is zero.
  ghost predicate ZeroFrom(g: Geo, store: Store, ino: Inode, end: nat, lim: nat)
    requires g.Valid() && |ino.zone| == NR_ZONE_NUMS
  {
    forall j: nat {:trigger Byte(g, store, ino, j)} :: end <= j < lim ==> Byte(g, store, ino, j) == 0
  }

  ghost predicate FileOk(g: Geo, store: Store, ino: Inode, lim: nat)
    requires g.Valid() && |ino.zone| == NR_ZONE_NUMS
  {
    ino.size <= lim && MappedBelow(g, store, ino, ino.size) && TailZero(g, store, ino, ino.size, lim)
  }

  // A write at the end of the file would start in the middle of a zone that is
  // not there.
  predicate BadGap(g: Geo, store: Store, ino: Inode, pos: nat)
    requires g.Valid() && |ino.zone| == NR_ZONE_NUMS
  {
    pos == ino.size && BlockNr(g, pos) % g.spz != 0 && ZoneOf(g, store, ino, ZoneNr(g, pos)) == NO_ZONE
  }

  // The blocks of that zone before the one written.
  predicate InGap(g: Geo, store: Store, ino: Inode, pos: nat, bi: nat)
    requires g.Valid() && |ino.zone| == NR_ZONE_NUMS
  {
    BadGap(g, store, ino, pos) && bi / g.spz == ZoneNr(g, pos) && bi < BlockNr(g, pos)
  }
}
