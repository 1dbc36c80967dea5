// Disk blocks: bytes, or little-endian sixteen-bit zone numbers.

module Blocks {
  type Block = seq<int>

  const NO_ZONE := 0
  const NO_BLOCK := 0

  // A block is bs bytes.
  ghost predicate IsBlock(b: Block, bs: nat) {
    |b| == bs && forall i :: 0 <= i < bs ==> 0 <= b[i] < 256
  }

  function Zeros(bs: nat): (b: Block)
    ensures |b| == bs && forall i :: 0 <= i < bs ==> b[i] == 0
  {
    seq(bs, i => 0)
  }

  // b_ind[i]
  function Ind(b: Block, i: nat): (z: int)
    requires 2 * i + 1 < |b|
  {
    b[2 * i] + 256 * b[2 * i + 1]
  }

  // b_ind[i] = z
  function PutInd(b: Block, i: nat, z: nat): (r: Block)
    requires 2 * i + 1 < |b|
    ensures |r| == |b|
  {
    b[2 * i := z % 256][2 * i + 1 := z / 256]
  }

  lemma IndRange(b: Block, bs: nat, i: nat)
    requires IsBlock(b, bs) && 2 * i + 1 < bs
    ensures 0 <= Ind(b, i) < 0x10000
  {}

  // Storing an entry changes that entry and no other.
  lemma PutIndAt(b: Block, bs: nat, i: nat, z: nat, j: nat)
    requires IsBlock(b, bs) && 2 * i + 1 < bs && 2 * j + 1 < bs && z < 0x10000
    ensures IsBlock(PutInd(b, i, z), bs)
    ensures Ind(PutInd(b, i, z), j) == if j == i then z else Ind(b, j)
  {}

  lemma ZerosBlock(bs: nat)
    ensures IsBlock(Zeros(bs), bs)
    ensures forall i: nat :: 2 * i + 1 < bs ==> Ind(Zeros(bs), i) == NO_ZONE
  {}

  // Overwriting part of a block.
  function Patch(b: Block, off: nat, data: seq<int>): (r: Block)
    requires off + |data| <= |b|
    ensures |r| == |b|
    ensures forall i :: 0 <= i < |b| ==> r[i] == if off <= i < off + |data| then data[i - off] else b[i]
  {
    b[..off] + data + b[off + |data|..]
  }

  lemma PatchBlock(b: Block, bs: nat, off: nat, data: seq<int>)
    requires IsBlock(b, bs) && off + |data| <= bs && forall i :: 0 <= i < |data| ==> 0 <= data[i] < 256
    ensures IsBlock(Patch(b, off, data), bs)
  {}
}
