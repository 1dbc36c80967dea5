// Allocation bit maps: blocks of 512 sixteen-bit words each, searched word by
// word from the neighbourhood of an origin, with wraparound.

module BitMaps {
  const INT_BITS := 16
  const INTS_PER_BLOCK := 512
  const BITS_PER_BLOCK := 8192
  const NO_BIT := 0

  // A sixteen-bit word, as a number.
  type Word = w: int | 0 <= w < 0x10000

  // (w >> i) & 1
  predicate Bit(w: nat, i: nat) {
    if i == 0 then w % 2 == 1 else Bit(w / 2, i - 1)
  }

  // w | (1 << i)
  function SetBit(w: nat, i: nat): (r: nat) {
    if i == 0 then (if w % 2 == 1 then w else w + 1) else w % 2 + 2 * SetBit(w / 2, i - 1)
  }

  // w & ~(1 << i)
  function ClearBit(w: nat, i: nat): (r: nat)
    ensures r <= w
  {
    if i == 0 then w - w % 2 else w % 2 + 2 * ClearBit(w / 2, i - 1)
  }

  lemma {:induction false} SetBitAt(w: nat, i: nat, j: nat)
    ensures Bit(SetBit(w, i), j) == (i == j || Bit(w, j))
  {
    if i > 0 && j > 0 {
      SetBitAt(w / 2, i - 1, j - 1);
    }
  }

  lemma {:induction false} ClearBitAt(w: nat, i: nat, j: nat)
    ensures Bit(ClearBit(w, i), j) == (i != j && Bit(w, j))
  {
    if i > 0 && j > 0 {
      ClearBitAt(w / 2, i - 1, j - 1);
    }
  }

  function Pow2(n: nat): (p: nat)
    ensures p > 0
  {
    if n == 0 then 1 else 2 * Pow2(n - 1)
  }

  // Setting a bit keeps a word a word.
  lemma {:induction false} SetBitFits(w: nat, i: nat, n: nat)
    requires i < n && w < Pow2(n)
    ensures SetBit(w, i) < Pow2(n)
  {
    if i > 0 {
      assert Pow2(n) == 2 * Pow2(n - 1);
      SetBitFits(w / 2, i - 1, n - 1);
      assert SetBit(w, i) == w % 2 + 2 * SetBit(w / 2, i - 1);
    } else {
      assert Pow2(n) == 2 * Pow2(n - 1);
    }
  }

  lemma Pow2Word()
    ensures Pow2(INT_BITS) == 0x10000
  {
    assert Pow2(4) == 16;
    assert Pow2(8) == 256;
    assert Pow2(12) == 4096;
  }

  // In the word ~0 every bit is set.
  lemma {:induction false} FullBits(n: nat, i: nat)
    requires i < n
    ensures Bit(Pow2(n) - 1, i)
  {
    if i > 0 {
      FullBits(n - 1, i - 1);
      assert (Pow2(n) - 1) / 2 == Pow2(n - 1) - 1;
    }
  }

  lemma {:induction false} NoBits(i: nat)
    ensures !Bit(0, i) && (Bit(1, i) <==> i == 0)
  {
    if i > 0 {
      NoBits(i - 1);
    }
  }

  lemma FullWord(i: nat)
    requires i < INT_BITS
    ensures Bit(0xFFFF, i)
  {
    Pow2Word();
    FullBits(INT_BITS, i);
  }

  // Where bit n lives.
  function BlockOf(n: nat): nat {
    n / BITS_PER_BLOCK
  }

  function WordOf(n: nat): (w: nat)
    ensures w < INTS_PER_BLOCK
  {
    n % BITS_PER_BLOCK / INT_BITS
  }

  function PlaceOf(n: nat): (i: nat)
    ensures i < INT_BITS
  {
    n % INT_BITS
  }

  // The number of bit i of word w of block b.
  function BitNr(b: nat, w: nat, i: nat): nat {
    b * BITS_PER_BLOCK + w * INT_BITS + i
  }

  lemma BitNrPlace(b: nat, w: nat, i: nat)
    requires w < INTS_PER_BLOCK && i < INT_BITS
    ensures var n := BitNr(b, w, i); BlockOf(n) == b && WordOf(n) == w && PlaceOf(n) == i
  {
    var r := INT_BITS * w + i;
    SplitBlock(b, r);
    SplitWord(w, i);
    SplitWord(INTS_PER_BLOCK * b + w, i);
  }

  lemma SplitBlock(q: nat, r: nat)
    requires r < BITS_PER_BLOCK
    ensures (BITS_PER_BLOCK * q + r) / BITS_PER_BLOCK == q && (BITS_PER_BLOCK * q + r) % BITS_PER_BLOCK == r
  {}

  lemma SplitWord(q: nat, r: nat)
    requires r < INT_BITS
    ensures (INT_BITS * q + r) / INT_BITS == q && (INT_BITS * q + r) % INT_BITS == r
  {}

  lemma PlaceBitNr(n: nat)
    ensures BitNr(BlockOf(n), WordOf(n), PlaceOf(n)) == n
  {
    var r := n % BITS_PER_BLOCK;
    var w, i := r / INT_BITS, r % INT_BITS;
    assert r == INT_BITS * w + i;
    assert n == INT_BITS * (INTS_PER_BLOCK * BlockOf(n) + w) + i;
    SplitWord(INTS_PER_BLOCK * BlockOf(n) + w, i);
  }

  // The word where a search from that bit begins.
  function WordStart(n: nat): (s: nat)
    ensures s == n / INT_BITS * INT_BITS && s <= n
  {
    n / INT_BITS * INT_BITS
  }

  lemma StartsAt(n: nat)
    ensures BitNr(BlockOf(n), WordOf(n), 0) == WordStart(n)
  {
    PlaceBitNr(n);
    assert n == INT_BITS * (n / INT_BITS) + PlaceOf(n);
  }

  datatype Freed = Freed | PanicNotInUse

  // A map with its blocks in the cache; dirt mirrors their dirty flags.
  class BitMap {
    const blocks: nat
    const words: array2<Word>
    const dirt: array<bool>

    ghost predicate Valid()
      reads this
    {
      && blocks > 0
      && words.Length0 == blocks && words.Length1 == INTS_PER_BLOCK
      && dirt.Length == blocks
    }

    // A map with only bit 0 set, which stands for nothing.
    constructor (blocks: nat)
      requires blocks > 0
      ensures Valid() && this.blocks == blocks && fresh(words) && fresh(dirt)
      ensures forall n :: Busy(n) <==> n == 0
    {
      this.blocks := blocks;
      words := new Word[blocks, INTS_PER_BLOCK]((b, w) => if b == 0 && w == 0 then 1 else 0);
      dirt := new bool[blocks](_ => false);
      new;
      forall n ensures Busy(n) <==> n == 0 {
        PlaceBitNr(n);
        NoBits(PlaceOf(n));
      }
    }

    // Bit n is set.
    ghost predicate Busy(n: nat)
      requires Valid()
      reads this, words
    {
      n < blocks * BITS_PER_BLOCK && Bit(words[BlockOf(n), WordOf(n)], PlaceOf(n))
    }

    // The first clear bit of a word, or 16.
    method FirstClear(k: Word) returns (i: nat)
      ensures i <= INT_BITS
      ensures i < INT_BITS ==> !Bit(k, i)
      ensures forall j :: 0 <= j < i ==> Bit(k, j)
    {
      i := 0;
      while i < INT_BITS
        invariant i <= INT_BITS
        invariant forall j :: 0 <= j < i ==> Bit(k, j)
      {
        if !Bit(k, i) {
          return;
        }
        i := i + 1;
      }
    }

    // Every bit from lo to hi is busy.
    ghost predicate AllBusy(lo: nat, hi: nat)
      requires Valid()
      reads this, words
    {
      forall n :: lo <= n < hi ==> Busy(n)
    }

    lemma WordBusy(b: nat, w: nat, upto: nat)
      requires Valid() && b < blocks && w < INTS_PER_BLOCK && upto <= INT_BITS
      requires forall j :: 0 <= j < upto ==> Bit(words[b, w], j)
      ensures AllBusy(BitNr(b, w, 0), BitNr(b, w, upto))
    {
      forall n | BitNr(b, w, 0) <= n < BitNr(b, w, upto) ensures Busy(n) {
        BitNrPlace(b, w, n - BitNr(b, w, 0));
      }
    }

    // The search of one block from word w on: the first clear bit below
    // mapBits, or none.
    method ScanBlock(b: nat, w0: nat, mapBits: nat) returns (a: nat, found: bool)
      requires Valid() && b < blocks && w0 <= INTS_PER_BLOCK
      ensures found ==> BitNr(b, w0, 0) <= a < mapBits && a < BitNr(b + 1, 0, 0) && !Busy(a)
      ensures found ==> AllBusy(BitNr(b, w0, 0), a)
      ensures !found ==> forall n :: BitNr(b, w0, 0) <= n < BitNr(b + 1, 0, 0) && n < mapBits ==> Busy(n)
    {
      found := false;
      a := 0;
      var w := w0;
      while w != INTS_PER_BLOCK
        invariant w0 <= w <= INTS_PER_BLOCK
        invariant AllBusy(BitNr(b, w0, 0), BitNr(b, w, 0))
        decreases INTS_PER_BLOCK - w
      {
        var k := words[b, w];
        if k != 0xFFFF {
          var i := FirstClear(k);
          WordBusy(b, w, i);
          if i < INT_BITS {
            a := BitNr(b, w, i);
            BitNrPlace(b, w, i);
            // Beyond the map: nothing more to find in this block.
            if a < mapBits {
              found := true;
            }
            return;
          }
        } else {
          forall j | 0 <= j < INT_BITS ensures Bit(words[b, w], j) {
            FullWord(j);
          }
          WordBusy(b, w, INT_BITS);
        }
        w := w + 1;
      }
    }

    // Set the bit found, and note that its block must be rewritten.
    method Claim(a: nat)
      requires Valid() && a < blocks * BITS_PER_BLOCK
      modifies words, dirt
      ensures forall n :: Busy(n) <==> old(Busy(n)) || n == a
      ensures dirt[..] == old(dirt[..])[BlockOf(a) := true]
    {
      var b, w, i := BlockOf(a), WordOf(a), PlaceOf(a);
      PlaceBitNr(a);
      Pow2Word();
      SetBitFits(words[b, w], i, INT_BITS);
      words[b, w] := SetBit(words[b, w], i);
      dirt[b] := true;
      forall n ensures Busy(n) <==> old(Busy(n)) || n == a {
        SetBitAt(old(words[b, w]), i, PlaceOf(n));
        PlaceBitNr(n);
      }
    }

    // Every bit of the map from lo to hi is busy.
    ghost predicate BusyBelow(lo: nat, hi: nat, mapBits: nat)
      requires Valid()
      reads this, words
    {
      forall n :: lo <= n < hi && n < mapBits ==> Busy(n)
    }

    // Bit a is the first clear bit below mapBits, from the word of the origin
    // on and after wrapping around if need be.
    ghost predicate ClearFrom(start: nat, a: nat, mapBits: nat)
      requires Valid()
      reads this, words
    {
      && a < mapBits && !Busy(a)
      && if start <= a then BusyBelow(start, a, mapBits)
         else BusyBelow(start, mapBits, mapBits) && BusyBelow(0, a, mapBits)
    }

    // After k blocks, from block b0 on, where the search began with bit first.
    ghost predicate Swept(first: nat, b0: nat, k: nat, mapBits: nat)
      requires Valid()
      reads this, words
    {
      match (first, b0 + k)
      case (first, last) =>
        if k == 0 then true
        else if last <= blocks then BusyBelow(first, BitNr(last, 0, 0), mapBits)
        else BusyBelow(first, mapBits, mapBits) && BusyBelow(0, BitNr(last - blocks, 0, 0), mapBits)
    }

    // Where the search is then.
    function NextBlock(b0: nat, k: nat): nat {
      if b0 + k < blocks then b0 + k else if b0 + k < 2 * blocks then b0 + k - blocks else 0
    }

    lemma SweptFound(first: nat, b0: nat, w0: nat, k: nat, w: nat, a: nat, mapBits: nat)
      requires Valid() && mapBits <= blocks * BITS_PER_BLOCK && b0 < blocks && w0 < INTS_PER_BLOCK
      requires k < (if w0 == 0 then blocks else blocks + 1) && w == if k == 0 then w0 else 0
      requires first == BitNr(b0, w0, 0) && Swept(first, b0, k, mapBits)
      requires var b := NextBlock(b0, k);
        BitNr(b, w, 0) <= a < mapBits && a < BitNr(b + 1, 0, 0) && !Busy(a) && AllBusy(BitNr(b, w, 0), a)
      ensures ClearFrom(first, a, mapBits)
    {}

    lemma SweptNext(first: nat, b0: nat, w0: nat, k: nat, w: nat, mapBits: nat)
      requires Valid() && mapBits <= blocks * BITS_PER_BLOCK && b0 < blocks && w0 < INTS_PER_BLOCK
      requires k < (if w0 == 0 then blocks else blocks + 1) && w == if k == 0 then w0 else 0
      requires first == BitNr(b0, w0, 0) && Swept(first, b0, k, mapBits)
      requires var b := NextBlock(b0, k);
        forall n :: BitNr(b, w, 0) <= n < BitNr(b + 1, 0, 0) && n < mapBits ==> Busy(n)
      ensures Swept(first, b0, k + 1, mapBits)
    {}

    // The blocks in turn, from the one of the origin on; its own block comes
    // again at the end when the search began in the middle of it.
    method Search(mapBits: nat, start: nat) returns (a: nat, found: bool)
      requires Valid() && mapBits <= blocks * BITS_PER_BLOCK && start < blocks * BITS_PER_BLOCK
      ensures found ==> ClearFrom(WordStart(start), a, mapBits)
      ensures !found ==> BusyBelow(0, mapBits, mapBits)
    {
      a := 0;
      found := false;
      var b := BlockOf(start);
      var w := (start - b * BITS_PER_BLOCK) / INT_BITS;
      StartsAt(start);
      ghost var b0, w0, k := b, w, 0;
      var blockCount := if w == 0 then blocks else blocks + 1;
      while blockCount > 0
        invariant k + blockCount == if w0 == 0 then blocks else blocks + 1
        invariant w == (if k == 0 then w0 else 0) && b == NextBlock(b0, k)
        invariant Swept(WordStart(start), b0, k, mapBits)
      {
        a, found := ScanBlock(b, w, mapBits);
        if found {
          SweptFound(WordStart(start), b0, w0, k, w, a, mapBits);
          return;
        }
        SweptNext(WordStart(start), b0, w0, k, w, mapBits);
        b := b + 1;
        if b == blocks {
          b := 0;
        }
        w := 0;
        k := k + 1;
        blockCount := blockCount - 1;
      }
    }

    // alloc_bit(): the first such bit, set; or NO_BIT when there is none.
    method AllocBit(mapBits: nat, origin: nat) returns (bit: nat)
      requires Valid() && Busy(0) && mapBits <= blocks * BITS_PER_BLOCK
      modifies words, dirt
      ensures bit == NO_BIT ==> (forall n :: Busy(n) <==> old(Busy(n))) && dirt[..] == old(dirt[..])
      ensures bit == NO_BIT <==> forall n :: 0 <= n < mapBits ==> old(Busy(n))
      ensures bit != NO_BIT ==>
        && old(ClearFrom(WordStart(if origin >= mapBits then 0 else origin), bit, mapBits))
        && (forall n :: Busy(n) <==> old(Busy(n)) || n == bit)
        && dirt[..] == old(dirt[..])[BlockOf(bit) := true]
    {
      var a, found := Search(mapBits, if origin >= mapBits then 0 else origin);
      if !found {
        return NO_BIT;
      }
      Claim(a);
      return a;
    }

    // free_bit(): clear one bit, or panic when it is clear already.
    method FreeBit(bit: nat) returns (r: Freed)
      requires Valid() && bit < blocks * BITS_PER_BLOCK
      modifies words, dirt
      ensures r == PanicNotInUse <==> !old(Busy(bit))
      ensures r == Freed ==>
        && (forall n :: Busy(n) <==> old(Busy(n)) && n != bit)
        && dirt[..] == old(dirt[..])[BlockOf(bit) := true]
    {
      var b, w, i := BlockOf(bit), WordOf(bit), PlaceOf(bit);
      PlaceBitNr(bit);
      if !Bit(words[b, w], i) {
        return PanicNotInUse;
      }
      words[b, w] := ClearBit(words[b, w], i);
      dirt[b] := true;
      forall n ensures Busy(n) <==> old(Busy(n)) && n != bit {
        ClearBitAt(old(words[b, w]), i, PlaceOf(n));
        PlaceBitNr(n);
      }
      return Freed;
    }
  }
}
