/** IStorageDevice of include/IStorageDevice.h: byte-level reads and writes by way of whole blocks, on
    a device that may transfer fewer blocks than asked for. */
module StorageDevices {
  import opened Words
  import opened ByteRanges

  const TWO_TO_THE_63: nat := 0x8000_0000_0000_0000

  function Min(a: nat, b: nat): nat {
    if a < b then a else b
  }

  /** The size of the block buffer without wrap-around: the range, what stands before it in its first
      block, and what is left of the block that the wrapped sum points to. */
  function BufferSize(offset: uint64, size: uint64, blockSize: nat): nat
    requires blockSize > 0 && size > 0
  {
    offset % blockSize + size + (blockSize - 1 - Wrap(offset + size - 1) % blockSize)
  }

  /** The block buffer is no larger than a std::vector of bytes can be. */
  predicate BufferFits(offset: uint64, size: uint64, blockSize: nat): (fits: bool)
    requires blockSize > 0
    ensures size + 2 * blockSize <= TWO_TO_THE_63 ==> fits
  {
    size > 0 ==> BufferSize(offset, size, blockSize) < TWO_TO_THE_63
  }

  /** The image after a write: kr blocks could be read beforehand and kw blocks were written. A byte of
      the last block that was neither given by the caller nor read is zero. */
  function Written(image: seq<Byte>, blockSize: nat, offset: nat, data: seq<Byte>, kr: nat, kw: nat): (r: seq<Byte>)
    requires blockSize > 0
    ensures |r| == |image|
    ensures forall a | 0 <= a < |image| ::
              r[a] == if InBlocks(a, FirstBlock(offset, blockSize), kw, blockSize) then
                        MergedByte(image, blockSize, offset, data, kr, a)
                      else image[a]
  {
    seq(|image|, a requires 0 <= a < |image| =>
      if InBlocks(a, FirstBlock(offset, blockSize), kw, blockSize) then
        MergedByte(image, blockSize, offset, data, kr, a)
      else image[a])
  }

  predicate InBlocks(a: nat, first: nat, count: nat, blockSize: nat) {
    first * blockSize <= a < (first + count) * blockSize
  }

  /** The byte for address a in the merge buffer. */
  function MergedByte(image: seq<Byte>, blockSize: nat, offset: nat, data: seq<Byte>, kr: nat, a: nat): Byte
    requires blockSize > 0 && a < |image|
  {
    if offset <= a < offset + |data| then data[a - offset]
    else if InBlocks(a, FirstBlock(offset, blockSize), kr, blockSize) then image[a]
    else 0
  }

  lemma BlocksFit(first: nat, count: nat, length: nat, blockSize: nat)
    requires blockSize > 0 && first + count <= length / blockSize
    ensures first * blockSize + count * blockSize == (first + count) * blockSize <= length
  {
    Distribute(first, count, blockSize);
    WholeBlocks(length, blockSize);
    MulMonotone(first + count, length / blockSize, blockSize);
  }

  /** memcpy. */
  method Copy(to: array<Byte>, at: nat, from: array<Byte>, start: nat, count: nat)
    requires to != from && at + count <= to.Length && start + count <= from.Length
    modifies to
    ensures forall i | 0 <= i < to.Length ::
              to[i] == if at <= i < at + count then from[start + i - at] else old(to[i])
  {
    for k := 0 to count
      invariant forall i | 0 <= i < to.Length ::
                  to[i] == if at <= i < at + k then from[start + i - at] else old(to[i])
    {
      to[at + k] := from[start + k];
    }
  }

  class StorageDevice {
    const blockSize: nat
    const readOnly: bool
    /** The device transfers every in-range block that it is asked for. */
    const complete: bool
    var image: seq<Byte>

    ghost predicate Valid()
      reads this
    {
      0 < blockSize < 0x1_0000_0000 && |image| < TWO_TO_THE_63
    }

    constructor (image: seq<Byte>, blockSize: nat, readOnly: bool, complete: bool)
      requires 0 < blockSize < 0x1_0000_0000 && |image| < TWO_TO_THE_63
      ensures Valid() && this.image == image && this.blockSize == blockSize
      ensures this.readOnly == readOnly && this.complete == complete
    {
      this.image, this.blockSize, this.readOnly, this.complete := image, blockSize, readOnly, complete;
    }

    function BlockCount(): nat
      requires Valid()
      reads this
    {
      |image| / blockSize
    }

    /** The documented contract: the number of blocks actually read, or -1. Which it is, is up to the
        device, unless it is complete. A device transfers no block that it does not have. */
    method ReadBlocks(first: nat, count: nat, buffer: array<Byte>) returns (k: int)
      requires Valid() && (first < BlockCount() ==> count * blockSize <= buffer.Length)
      modifies buffer
      ensures -1 <= k <= count && (k > 0 ==> first + k <= BlockCount())
      ensures k >= 0 ==>
                forall i | 0 <= i < buffer.Length ::
                  buffer[i] == if i < k * blockSize && first * blockSize + i < |image| then image[first * blockSize + i]
                               else old(buffer[i])
      ensures complete && first + count <= BlockCount() ==> k == count
    {
      var most := if first + count <= BlockCount() then count
                  else if first <= BlockCount() then BlockCount() - first
                  else 0;
      k :| -1 <= k <= most && (complete && first + count <= BlockCount() ==> k == count);
      if k > 0 {
        BlocksFit(first, k, |image|, blockSize);
        MulMonotone(k, count, blockSize);
        forall i | 0 <= i < k * blockSize {
          buffer[i] := image[first * blockSize + i];
        }
      }
    }

    /** Likewise for writing; after an error nothing has changed. */
    method WriteBlocks(first: nat, count: nat, buffer: array<Byte>) returns (k: int)
      requires Valid() && (first < BlockCount() ==> count * blockSize <= buffer.Length)
      modifies this
      ensures Valid() && |image| == |old(image)|
      ensures -1 <= k <= count && (k > 0 ==> first + k <= old(BlockCount()))
      ensures k >= 0 ==> k * blockSize <= buffer.Length
      ensures k <= 0 ==> image == old(image)
      ensures k > 0 ==>
                forall a | 0 <= a < |image| ::
                  image[a] == if first * blockSize <= a < first * blockSize + k * blockSize
                              then buffer[a - first * blockSize]
                              else old(image)[a]
      ensures complete && first + count <= old(BlockCount()) ==> k == count
    {
      var most := if first + count <= BlockCount() then count
                  else if first <= BlockCount() then BlockCount() - first
                  else 0;
      k :| -1 <= k <= most && (complete && first + count <= BlockCount() ==> k == count);
      if k > 0 {
        BlocksFit(first, k, |image|, blockSize);
        MulMonotone(k, count, blockSize);
        image := Splice(image, first * blockSize, buffer[..k * blockSize]);
      }
    }

    /** k is the number of blocks that readBlocks delivered. */
    method ReadBytes(offset: uint64, size: uint64, buffer: array?<Byte>) returns (r: int, ghost k: int)
      requires Valid() && BufferFits(offset, size, blockSize)
      requires buffer != null ==> size <= buffer.Length
      modifies (if buffer == null then {} else {buffer})
      ensures buffer == null || size == 0 ==> r == 0 && (buffer != null ==> buffer[..] == old(buffer[..]))
      ensures buffer != null && size > 0 ==>
                && r == (if k <= 0 then -1 else Min(size, k * blockSize - offset % blockSize))
                && k <= BlocksTouched(offset, size, blockSize)
                && (k > 0 ==> r > 0 && offset + r <= |image|)
                && (k > 0 ==> buffer[..r] == image[offset..offset + r] && buffer[r..] == old(buffer[r..]))
                && (k <= 0 ==> buffer[..] == old(buffer[..]))
                && (complete && offset + size <= Capacity(|image|, blockSize) ==> r == size)
    {
      if buffer == null || size == 0 {
        r, k := 0, 0;
        return;
      }
      hide BlocksTouched, BufferSize, FirstBlock, Wrap, Min, Capacity;
      var startBlock, endBlock, numBlocks := Blocks(offset, size);
      var blockBuffer := new Byte[Wrap(numBlocks * blockSize)](_ => 0);
      var blocksRead := ReadBlocks(startBlock, numBlocks, blockBuffer);
      k := blocksRead;
      InRangeBlocks(offset, size, blockSize, |image|);
      if blocksRead <= 0 {
        r := -1;
        return;
      }
      var blockOffset := offset % blockSize;
      assert startBlock < BlockCount() && numBlocks == BlocksTouched(offset, size, blockSize);
      DeliveredRange(offset, size, blockSize, blocksRead, |image|);
      var bytesToCopy := Min(size, Wrap(blocksRead * blockSize - blockOffset));
      assert bytesToCopy <= size && blockOffset + bytesToCopy <= blockBuffer.Length;
      Copy(buffer, 0, blockBuffer, blockOffset, bytesToCopy);
      r := bytesToCopy;
      assert forall i | 0 <= i < r :: buffer[i] == blockBuffer[blockOffset + i] == image[offset + i];
    }

    /** kr and kw are the numbers of blocks that readBlocks and writeBlocks delivered. */
    method WriteBytes(offset: uint64, size: uint64, buffer: array?<Byte>) returns (r: int, ghost kr: int, ghost kw: int)
      requires Valid() && BufferFits(offset, size, blockSize)
      requires buffer != null ==> size <= buffer.Length
      modifies this
      ensures Valid() && |image| == |old(image)|
      ensures buffer == null || size == 0 || readOnly ==> r == 0 && image == old(image)
      ensures buffer != null && size > 0 && !readOnly ==>
                var partial := IsPartial(offset, size, blockSize);
                && r == (if (partial && kr <= 0) || kw <= 0 then -1 else size)
                && (r == -1 ==> image == old(image))
                && (r != -1 ==>
                      && Allowed(|old(image)|, blockSize, offset, size, kr, kw)
                      && image == Written(old(image), blockSize, offset, buffer[..size], kr, kw))
                && (complete && offset + size <= Capacity(|old(image)|, blockSize) ==>
                      kw == BlocksTouched(offset, size, blockSize) && (partial ==> kr == kw))
    {
      if buffer == null || size == 0 || readOnly {
        r, kr, kw := 0, 0, 0;
        return;
      }
      hide BlocksTouched, BufferSize, FirstBlock, Wrap, Min, Capacity, Written, InBlocks, MergedByte;
      var startBlock, endBlock, numBlocks := Blocks(offset, size);
      InRangeBlocks(offset, size, blockSize, |image|);
      var blockBuffer, failed, blocksRead, before := Merge(offset, size, buffer, startBlock, numBlocks);
      kr, kw := blocksRead, 0;
      if failed {
        r := -1;
        return;
      }
      ghost var was, merged := image, blockBuffer[..];
      var blocksWritten := WriteBlocks(startBlock, numBlocks, blockBuffer);
      kw := blocksWritten;
      if blocksWritten <= 0 {
        r := -1;
        return;
      }
      r := size;
      MergedImage(was, image, blockSize, offset, buffer[..size], kr, kw, before, merged);
    }

    /** The block buffer with the caller's data in it. The blocks are read back first if the range does not
        start and end on block boundaries. */
    method Merge(offset: uint64, size: uint64, buffer: array<Byte>, startBlock: uint64, numBlocks: uint64)
      returns (blockBuffer: array<Byte>, failed: bool, ghost kr: int, ghost before: seq<Byte>)
      requires Valid() && 0 < size <= buffer.Length && startBlock == FirstBlock(offset, blockSize)
      requires offset % blockSize + size <= Wrap(numBlocks * blockSize)
      requires startBlock < BlockCount() ==> numBlocks * blockSize <= Wrap(numBlocks * blockSize)
      ensures fresh(blockBuffer) && blockBuffer.Length == Wrap(numBlocks * blockSize)
      ensures failed == (IsPartial(offset, size, blockSize) && kr <= 0)
      ensures kr <= numBlocks && (kr > 0 ==> startBlock + kr <= BlockCount())
      ensures !IsPartial(offset, size, blockSize) ==> kr == 0
      ensures IsPartial(offset, size, blockSize) && complete && startBlock + numBlocks <= BlockCount() ==>
                kr == numBlocks
      ensures !failed ==> ReadBack(image, startBlock * blockSize, kr * blockSize, before)
      ensures !failed ==> LaidOver(before, offset % blockSize, buffer[..size], blockBuffer[..])
    {
      hide BlocksTouched, BufferSize, FirstBlock, Wrap;
      blockBuffer := new Byte[Wrap(numBlocks * blockSize)](_ => 0);
      kr, before, failed := 0, [], false;
      var blockOffset := offset % blockSize;
      var partialFirst := blockOffset != 0;
      var partialLast := Wrap(offset + size) % blockSize != 0;
      if partialFirst || partialLast {
        var blocksRead := ReadBlocks(startBlock, numBlocks, blockBuffer);
        kr := blocksRead;
        if blocksRead <= 0 {
          failed := true;
          return;
        }
      }
      before := blockBuffer[..];
      Copy(blockBuffer, blockOffset, buffer, 0, size);
    }

    /** The first, the last and the number of the covering blocks, in uint64_t arithmetic. The sum may
        wrap around; then no such block is on the device. */
    method Blocks(offset: uint64, size: uint64) returns (startBlock: uint64, endBlock: uint64, numBlocks: uint64)
      requires Valid() && size > 0 && BufferFits(offset, size, blockSize)
      ensures startBlock == FirstBlock(offset, blockSize) && BlocksTouched(offset, size, blockSize) > 0
      ensures Wrap(numBlocks * blockSize) == BufferSize(offset, size, blockSize) >= offset % blockSize + size
      ensures startBlock < BlockCount() ==>
                && numBlocks == BlocksTouched(offset, size, blockSize)
                && numBlocks * blockSize == BufferSize(offset, size, blockSize)
    {
      hide Wrap;
      QuotientIsWord(offset, blockSize);
      QuotientIsWord(Wrap(Wrap(offset + size) - 1), blockSize);
      startBlock := offset / blockSize;
      endBlock := Wrap(Wrap(offset + size) - 1) / blockSize;
      numBlocks := Wrap(Wrap(endBlock - startBlock) + 1);
      assert numBlocks == BlocksAsked(offset, size, blockSize);
      hide BlocksTouched, BufferSize, FirstBlock, BlocksAsked;
      Covering(offset, size, blockSize);
      BufferHoldsRange(offset, size, blockSize);
      BlocksOnDevice(offset, size, blockSize, |image|);
      NoWrap(BufferSize(offset, size, blockSize));
    }
  }

  /** numBlocks, in uint64_t arithmetic. */
  function BlocksAsked(offset: uint64, size: uint64, blockSize: nat): uint64
    requires 0 < blockSize && size > 0
  {
    Wrap(Wrap(Wrap(Wrap(offset + size) - 1) / blockSize - offset / blockSize) + 1)
  }

  lemma WrapPlus(x: int, k: int)
    ensures Wrap(x + k * TWO_TO_THE_64) == Wrap(x)
  {
  }

  lemma Unwrap(x: int) returns (k: int)
    ensures Wrap(x) == x + k * TWO_TO_THE_64
  {
    k := -(x / TWO_TO_THE_64);
  }

  lemma WrapInside(x: int, y: int, m: int)
    ensures Wrap(Wrap(x) + y) == Wrap(x + y)
    ensures Wrap(Wrap(x) * m) == Wrap(x * m)
  {
    var k := Unwrap(x);
    WrapPlus(x + y, k);
    assert (x + k * TWO_TO_THE_64) * m == x * m + (k * m) * TWO_TO_THE_64;
    WrapPlus(x * m, k * m);
  }

  lemma QuotientIsWord(a: uint64, d: nat)
    requires d > 0
    ensures 0 <= a / d < TWO_TO_THE_64
  {
    Monotone(0, a, d);
    if a / d > a {
      MulMonotone(1, d, a / d);
    }
  }

  lemma WrapOnce(x: nat)
    requires x < 2 * TWO_TO_THE_64
    ensures Wrap(x) == if x < TWO_TO_THE_64 then x else x - TWO_TO_THE_64
  {
  }

  /** The distance from the first byte of one block to the end of another. */
  lemma SpanInBytes(from: nat, to: nat, blockSize: nat)
    requires blockSize > 0
    ensures (to / blockSize - from / blockSize + 1) * blockSize ==
            to - to % blockSize - (from - from % blockSize) + blockSize
  {
    var start, end := from / blockSize, to / blockSize;
    assert end * blockSize + to % blockSize == to && start * blockSize + from % blockSize == from;
    assert (end - start + 1) * blockSize == end * blockSize - start * blockSize + blockSize;
  }

  lemma AskedInBytes(offset: uint64, size: uint64, blockSize: nat)
    requires blockSize > 0 && size > 0
    ensures Wrap(BlocksAsked(offset, size, blockSize) * blockSize) ==
            Wrap((Wrap(offset + size - 1) / blockSize - offset / blockSize + 1) * blockSize)
  {
    hide Wrap;
    var w := Wrap(offset + size - 1);
    WrapInside(offset + size, -1, 1);
    var blocks := w / blockSize - offset / blockSize;
    WrapInside(blocks, 1, 1);
    WrapInside(blocks + 1, 0, blockSize);
  }

  /** For all offsets and sizes, wrapping sums included: the block buffer has the size BufferSize modulo
      2^64, and it holds the bytes that memcpy moves if and only if that does not wrap around. */
  lemma BufferHoldsRange(offset: uint64, size: uint64, blockSize: nat)
    requires 0 < blockSize < 0x1_0000_0000 && size > 0
    ensures Wrap(BlocksAsked(offset, size, blockSize) * blockSize) == Wrap(BufferSize(offset, size, blockSize))
    ensures offset % blockSize + size <= Wrap(BlocksAsked(offset, size, blockSize) * blockSize) <==>
            BufferSize(offset, size, blockSize) < TWO_TO_THE_64
  {
    hide Wrap, BlocksAsked;
    var b, w := BufferSize(offset, size, blockSize), Wrap(offset + size - 1);
    AskedInBytes(offset, size, blockSize);
    SpanInBytes(offset, w, blockSize);
    var k := Unwrap(offset + size - 1);
    WrapPlus(b, k);
    WrapOnce(b);
  }

  /** Where the device has the first block, nothing wraps. */
  lemma BlocksOnDevice(offset: uint64, size: uint64, blockSize: nat, length: nat)
    requires blockSize > 0 && size > 0 && BufferFits(offset, size, blockSize) && length < TWO_TO_THE_63
    ensures FirstBlock(offset, blockSize) < length / blockSize ==>
              && BlocksAsked(offset, size, blockSize) == BlocksTouched(offset, size, blockSize)
              && BlocksTouched(offset, size, blockSize) * blockSize == BufferSize(offset, size, blockSize)
  {
    if FirstBlock(offset, blockSize) < length / blockSize {
      StartsBefore(offset, blockSize, length);
      BlocksWithoutWrap(offset, size, blockSize);
    }
  }

  lemma StartsBefore(offset: nat, blockSize: nat, length: nat)
    requires blockSize > 0 && FirstBlock(offset, blockSize) < length / blockSize
    ensures offset < length
  {
    if offset >= length {
      Monotone(length, offset, blockSize);
    }
  }

  lemma BlocksWithoutWrap(offset: uint64, size: uint64, blockSize: nat)
    requires blockSize > 0 && size > 0 && offset + size < TWO_TO_THE_64
    requires BufferSize(offset, size, blockSize) < TWO_TO_THE_64
    ensures BlocksAsked(offset, size, blockSize) == BlocksTouched(offset, size, blockSize)
    ensures BlocksTouched(offset, size, blockSize) * blockSize == BufferSize(offset, size, blockSize)
  {
    hide Wrap;
    var n, last := BlocksTouched(offset, size, blockSize), offset + size - 1;
    NoWrap(offset + size);
    NoWrap(last);
    SpanInBytes(offset, last, blockSize);
    AtMostProduct(n, blockSize);
    NoWrap(n - 1);
    NoWrap(n);
  }

  lemma AtMostProduct(n: nat, d: nat)
    requires d > 0
    ensures n <= n * d
  {
    MulMonotone(1, d, n);
  }

  /** Whether the blocks are read back before a write. */
  predicate IsPartial(offset: nat, size: nat, blockSize: nat)
    requires blockSize > 0
  {
    offset % blockSize != 0 || Wrap(offset + size) % blockSize != 0
  }

  /** The written blocks of the merge buffer make up the image that Written describes. */
  /** The block buffer after the read back of count bytes from the given address: zeros elsewhere. */
  ghost predicate ReadBack(image: seq<Byte>, from: nat, count: nat, before: seq<Byte>) {
    forall i | 0 <= i < |before| :: before[i] == if i < count && from + i < |image| then image[from + i] else 0
  }

  /** The block buffer with the caller's data laid over it. */
  ghost predicate LaidOver(before: seq<Byte>, at: nat, data: seq<Byte>, merged: seq<Byte>) {
    && |merged| == |before|
    && forall i | 0 <= i < |merged| :: merged[i] == if at <= i < at + |data| then data[i - at] else before[i]
  }

  lemma MergedImage(was: seq<Byte>, now: seq<Byte>, blockSize: nat, offset: nat, data: seq<Byte>, kr: nat, kw: nat,
                    before: seq<Byte>, merged: seq<Byte>)
    requires blockSize > 0 && |data| > 0 && |now| == |was| && |before| == |merged|
    requires kr <= BlocksTouched(offset, |data|, blockSize) && kw <= BlocksTouched(offset, |data|, blockSize)
    requires |merged| == BlocksTouched(offset, |data|, blockSize) * blockSize
    requires ReadBack(was, FirstBlock(offset, blockSize) * blockSize, kr * blockSize, before)
    requires LaidOver(before, offset % blockSize, data, merged)
    requires kw * blockSize <= |merged|
    requires forall a | 0 <= a < |now| ::
               now[a] == if 0 <= a - FirstBlock(offset, blockSize) * blockSize < kw * blockSize
                        then merged[a - FirstBlock(offset, blockSize) * blockSize] else was[a]
    ensures now == Written(was, blockSize, offset, data, kr, kw)
  {
    hide BlocksTouched;
    var first := FirstBlock(offset, blockSize);
    Covering(offset, |data|, blockSize);
    Distribute(first, kw, blockSize);
    Distribute(first, kr, blockSize);
    hide FirstBlock;
  }

  /** A range inside the whole blocks of the device touches existing blocks only. */
  lemma InRangeBlocks(offset: nat, size: nat, blockSize: nat, length: nat)
    requires blockSize > 0 && size > 0
    ensures offset + size <= Capacity(length, blockSize) ==>
              FirstBlock(offset, blockSize) + BlocksTouched(offset, size, blockSize) <= length / blockSize
  {
    Covering(offset, size, blockSize);
    var last, count := FirstBlock(offset, blockSize) + BlocksTouched(offset, size, blockSize) - 1, length / blockSize;
    if last >= count {
      MulMonotone(count, last, blockSize);
    }
  }

  /** What k delivered blocks say about the bytes asked for. */
  lemma DeliveredRange(offset: uint64, size: uint64, blockSize: nat, k: nat, length: nat)
    requires blockSize > 0 && size > 0
    requires BlocksTouched(offset, size, blockSize) * blockSize == BufferSize(offset, size, blockSize) < TWO_TO_THE_64
    requires 0 < k <= BlocksTouched(offset, size, blockSize)
    requires FirstBlock(offset, blockSize) + k <= length / blockSize
    ensures var b, w := offset % blockSize, k * blockSize - offset % blockSize;
            && Wrap(w) == w > 0 && 0 < Min(size, w) <= size && Min(size, w) <= w
            && FirstBlock(offset, blockSize) * blockSize + b == offset
            && offset + w <= length
            && b + Min(size, w) <= k * blockSize <= BufferSize(offset, size, blockSize)
            && (k == BlocksTouched(offset, size, blockSize) ==> Min(size, w) == size)
  {
    Covering(offset, size, blockSize);
    BlocksFit(FirstBlock(offset, blockSize), k, length, blockSize);
    MulMonotone(1, k, blockSize);
    MulMonotone(k, BlocksTouched(offset, size, blockSize), blockSize);
    Distribute(FirstBlock(offset, blockSize), BlocksTouched(offset, size, blockSize), blockSize);
  }

  // ---------- when a write does what it is asked for ----------

  /** What the contract of the device allows in a write that is reported as done: kr blocks read back,
      kw blocks written. */
  predicate Allowed(length: nat, blockSize: nat, offset: nat, size: nat, kr: int, kw: int)
    requires blockSize > 0 && size > 0
  {
    var first, n := FirstBlock(offset, blockSize), BlocksTouched(offset, size, blockSize);
    && 0 <= kr <= n && 0 < kw <= n
    && (kr > 0 ==> first + kr <= length / blockSize) && first + kw <= length / blockSize
    && (IsPartial(offset, size, blockSize) ==> kr > 0)
  }

  /** The number of bytes of the caller that kw written blocks hold. */
  function BytesWritten(offset: nat, size: nat, blockSize: nat, kw: nat): int
    requires blockSize > 0
  {
    var room := kw * blockSize - offset % blockSize;
    if size < room then size else room
  }

  /** The new image is the old one with the transferred part of the data laid over it. */
  predicate WritesExactly(image: seq<Byte>, blockSize: nat, offset: nat, data: seq<Byte>, kr: nat, kw: nat)
    requires blockSize > 0
  {
    var w := BytesWritten(offset, |data|, blockSize, kw);
    && 0 < w <= |data| && offset + w <= |image|
    && Written(image, blockSize, offset, data, kr, kw) == Splice(image, offset, data[..w])
  }

  /** A byte behind the caller's range lies in a written block, was not read, and is not zero. */
  predicate LosesByte(image: seq<Byte>, blockSize: nat, offset: nat, size: nat, kr: nat, kw: nat) {
    blockSize > 0 &&
    exists a | 0 <= a < |image| :: TailByte(a, blockSize, offset, size, kr, kw) && image[a] != 0
  }

  predicate TailByte(a: nat, blockSize: nat, offset: nat, size: nat, kr: nat, kw: nat)
    requires blockSize > 0
  {
    var first := FirstBlock(offset, blockSize);
    offset + size <= a < (first + kw) * blockSize && (first + kr) * blockSize <= a
  }

  /** For given numbers of blocks: exact if and only if no byte behind the data is lost to a short
      pre-read. */
  lemma WriteIsExact(image: seq<Byte>, blockSize: nat, offset: nat, data: seq<Byte>, kr: nat, kw: nat)
    requires blockSize > 0 && data != [] && Allowed(|image|, blockSize, offset, |data|, kr, kw)
    ensures WritesExactly(image, blockSize, offset, data, kr, kw) <==>
            !LosesByte(image, blockSize, offset, |data|, kr, kw)
  {
    hide BlocksTouched;
    var first, w := FirstBlock(offset, blockSize), BytesWritten(offset, |data|, blockSize, kw);
    Covering(offset, |data|, blockSize);
    BlocksFit(first, kw, |image|, blockSize);
    Distribute(first, kr, blockSize);
    MulMonotone(1, kw, blockSize);
    assert kr > 0 ==> blockSize <= kr * blockSize by { if kr > 0 { MulMonotone(1, kr, blockSize); } }
    var now, wanted := Written(image, blockSize, offset, data, kr, kw), Splice(image, offset, data[..w]);
    hide FirstBlock;
    forall a | 0 <= a < |image|
      ensures now[a] == wanted[a] <==> TailByte(a, blockSize, offset, |data|, kr, kw) ==> image[a] == 0
    {
    }
    if now != wanted {
      var a :| 0 <= a < |image| && now[a] != wanted[a];
      assert TailByte(a, blockSize, offset, |data|, kr, kw);
    }
  }

  /** What a caller can look at before the call: the range ends on a block boundary, or touches one
      block, or leaves the device, or nothing but zeros stands behind it in its last block. */
  predicate WriteIsSafe(image: seq<Byte>, blockSize: nat, offset: nat, size: nat)
    requires blockSize > 0 && size > 0
  {
    var first, n := FirstBlock(offset, blockSize), BlocksTouched(offset, size, blockSize);
    || (offset + size) % blockSize == 0
    || n == 1
    || first + n > |image| / blockSize
    || forall a | offset + size <= a < (first + n) * blockSize && a < |image| :: image[a] == 0
  }

  /** A write changes its own range only, on every device that keeps the contract, if and only if it is
      safe. */
  lemma SafeOnEveryDevice(image: seq<Byte>, blockSize: nat, offset: nat, data: seq<Byte>)
    requires blockSize > 0 && data != [] && |image| < TWO_TO_THE_64
    ensures WriteIsSafe(image, blockSize, offset, |data|) <==>
            forall kr: nat, kw: nat | Allowed(|image|, blockSize, offset, |data|, kr, kw) ::
              WritesExactly(image, blockSize, offset, data, kr, kw)
  {
    hide WritesExactly, LosesByte;
    forall kr: nat, kw: nat | Allowed(|image|, blockSize, offset, |data|, kr, kw)
      ensures WritesExactly(image, blockSize, offset, data, kr, kw) <==>
              !LosesByte(image, blockSize, offset, |data|, kr, kw)
      ensures WriteIsSafe(image, blockSize, offset, |data|) ==> !LosesByte(image, blockSize, offset, |data|, kr, kw)
    {
      WriteIsExact(image, blockSize, offset, data, kr, kw);
      if WriteIsSafe(image, blockSize, offset, |data|) {
        SafeLosesNothing(image, blockSize, offset, |data|, kr, kw);
      }
    }
    if !WriteIsSafe(image, blockSize, offset, |data|) {
      var n := UnsafeLosesByte(image, blockSize, offset, |data|);
    }
  }

  lemma SafeLosesNothing(image: seq<Byte>, blockSize: nat, offset: nat, size: nat, kr: nat, kw: nat)
    requires blockSize > 0 && size > 0 && |image| < TWO_TO_THE_64
    requires WriteIsSafe(image, blockSize, offset, size) && Allowed(|image|, blockSize, offset, size, kr, kw)
    ensures !LosesByte(image, blockSize, offset, size, kr, kw)
  {
    var first, n := FirstBlock(offset, blockSize), BlocksTouched(offset, size, blockSize);
    Covering(offset, size, blockSize);
    if n == 1 {
      BlocksFit(first, 1, |image|, blockSize);
      assert IsPartial(offset, size, blockSize) || (offset + size) % blockSize == 0;
      NothingIsLost(image, blockSize, offset, size, kr, kw);
    } else if (offset + size) % blockSize == 0 || first + n > |image| / blockSize {
      NothingIsLost(image, blockSize, offset, size, kr, kw);
    } else {
      MulMonotone(first + kw, first + n, blockSize);
    }
  }

  /** One block read back and all blocks written. */
  lemma UnsafeLosesByte(image: seq<Byte>, blockSize: nat, offset: nat, size: nat) returns (n: nat)
    requires blockSize > 0 && size > 0 && !WriteIsSafe(image, blockSize, offset, size)
    ensures Allowed(|image|, blockSize, offset, size, 1, n) && LosesByte(image, blockSize, offset, size, 1, n)
  {
    n := BlocksTouched(offset, size, blockSize);
    var first := FirstBlock(offset, blockSize);
    Covering(offset, size, blockSize);
    var a :| offset + size <= a < (first + n) * blockSize && a < |image| && image[a] != 0;
    MulMonotone(first + 1, first + n - 1, blockSize);
    assert TailByte(a, blockSize, offset, size, 1, n);
  }

  /** Enough for given numbers of blocks: the last block is read back, or the range ends on a block
      boundary, or the blocks written were read. A write of whole blocks needs no pre-read at all. */
  lemma NothingIsLost(image: seq<Byte>, blockSize: nat, offset: nat, size: nat, kr: nat, kw: nat)
    requires blockSize > 0 && size > 0 && kw <= BlocksTouched(offset, size, blockSize)
    requires kw <= kr || (offset + size) % blockSize == 0 || kw < BlocksTouched(offset, size, blockSize)
    ensures !LosesByte(image, blockSize, offset, size, kr, kw)
  {
    var first, n := FirstBlock(offset, blockSize), BlocksTouched(offset, size, blockSize);
    Covering(offset, size, blockSize);
    if kw <= kr {
      MulMonotone(first + kw, first + kr, blockSize);
    } else if kw < n {
      MulMonotone(first + kw, first + n - 1, blockSize);
    } else {
      EndsOnBoundary(first + n, offset + size, blockSize);
    }
  }

  lemma EndsOnBoundary(blocks: nat, end: nat, blockSize: nat)
    requires blockSize > 0 && blocks > 0 && end % blockSize == 0
    requires (blocks - 1) * blockSize < end <= blocks * blockSize
    ensures end == blocks * blockSize
  {
    var q := end / blockSize;
    assert end == q * blockSize;
    if q < blocks {
      MulMonotone(q, blocks - 1, blockSize);
    }
  }

  /** writeBytes reports the whole size although fewer bytes were written, unless all blocks were. */
  lemma ReportIsTrue(offset: nat, size: nat, blockSize: nat, kw: nat)
    requires blockSize > 0 && size > 0 && 0 < kw <= BlocksTouched(offset, size, blockSize)
    ensures BytesWritten(offset, size, blockSize, kw) == size <==> kw == BlocksTouched(offset, size, blockSize)
  {
    var first, n := FirstBlock(offset, blockSize), BlocksTouched(offset, size, blockSize);
    Covering(offset, size, blockSize);
    Distribute(first, kw, blockSize);
    Distribute(first, n, blockSize);
    if kw < n {
      MulMonotone(first + kw, first + n - 1, blockSize);
    }
  }

  /** The report is true on every device that keeps the contract if and only if one block is touched or
      the device has none of them. */
  lemma ReportIsTrueOnEveryDevice(length: nat, blockSize: nat, offset: nat, size: nat)
    requires blockSize > 0 && size > 0
    ensures (BlocksTouched(offset, size, blockSize) == 1 || FirstBlock(offset, blockSize) >= length / blockSize) <==>
            forall kr: nat, kw: nat | Allowed(length, blockSize, offset, size, kr, kw) ::
              BytesWritten(offset, size, blockSize, kw) == size
  {
    var first, n := FirstBlock(offset, blockSize), BlocksTouched(offset, size, blockSize);
    forall kr: nat, kw: nat | Allowed(length, blockSize, offset, size, kr, kw)
      ensures BytesWritten(offset, size, blockSize, kw) == size <==> kw == n
    {
      ReportIsTrue(offset, size, blockSize, kw);
    }
    Covering(offset, size, blockSize);
    if n != 1 && first < length / blockSize {
      assert Allowed(length, blockSize, offset, size, 1, 1);
    }
  }

  /** A short pre-read destroys data: three bytes written over two blocks of two, of which only the
      first could be read, clear the fourth byte. */
  lemma ShortPreReadClearsByte()
    ensures Written([7, 7, 7, 9], 2, 0, [1, 2, 3], 1, 2) == [1, 2, 3, 0]
  {
    assert FirstBlock(0, 2) == 0;
  }

  // ---------- runs ----------

  /** On a complete, writable device every sequence of in-range calls leaves the image and returns the
      bytes that a flat byte array would. */
  method RunCalls(device: StorageDevice, calls: seq<Call>) returns (outputs: seq<seq<Byte>>)
    requires device.Valid() && device.complete && !device.readOnly
    requires AllInRange(calls, |device.image|, device.blockSize)
    modifies device
    ensures device.Valid() && |device.image| == |old(device.image)|
    ensures device.image == FlatImage(old(device.image), calls, device.blockSize)
    ensures outputs == FlatOutputs(old(device.image), calls, device.blockSize)
  {
    outputs := [];
    ghost var was := device.image;
    for i := 0 to |calls|
      invariant device.Valid() && |device.image| == |was|
      invariant device.image == FlatImage(was, calls[..i], device.blockSize)
      invariant outputs == FlatOutputs(was, calls[..i], device.blockSize)
    {
      hide FlatImage, FlatOutputs, ImageAfter, OutputOf, InRange;
      assert calls[..i + 1] == calls[..i] + [calls[i]];
      FlatStep(was, calls[..i], calls[i], device.blockSize);
      var output := RunCall(device, calls[i]);
      outputs := outputs + [output];
    }
    assert calls[..|calls|] == calls;
  }

  lemma InRangeFits(offset: nat, size: nat, blockSize: nat, length: nat)
    requires blockSize > 0 && length < TWO_TO_THE_63 && offset + size <= Capacity(length, blockSize)
    ensures offset + size < TWO_TO_THE_63 && BufferFits(offset, size, blockSize)
  {
    if size > 0 {
      InRangeBlocks(offset, size, blockSize, length);
      Covering(offset, size, blockSize);
      var first, n := FirstBlock(offset, blockSize), BlocksTouched(offset, size, blockSize);
      BlocksFit(first, n, length, blockSize);
      SpanInBytes(offset, offset + size - 1, blockSize);
      hide BlocksTouched, FirstBlock;
      NoWrap(offset + size - 1);
    }
  }

  method RunCall(device: StorageDevice, call: Call) returns (output: seq<Byte>)
    requires device.Valid() && device.complete && !device.readOnly
    requires InRange(call, |device.image|, device.blockSize)
    modifies device
    ensures device.Valid() && |device.image| == |old(device.image)|
    ensures device.image == ImageAfter(old(device.image), call, device.blockSize)
    ensures output == OutputOf(old(device.image), call, device.blockSize)
  {
    hide Min, IsPartial, BlocksTouched, BufferFits, FirstBlock, Capacity;
    match call
    case Read(offset, size) =>
      InRangeFits(offset, size, device.blockSize, |device.image|);
      var buffer := new Byte[size](_ => 0);
      var r, k := device.ReadBytes(offset, size, buffer);
      output := buffer[..];
      assert size > 0 ==> buffer[..r] == buffer[..];
    case Write(offset, data) =>
      output := [];
      InRangeFits(offset, |data|, device.blockSize, |device.image|);
      var buffer := new Byte[|data|](i requires 0 <= i < |data| => data[i]);
      assert buffer[..|data|] == data;
      ghost var was := device.image;
      var r, kr, kw := device.WriteBytes(offset, |data|, buffer);
      if data != [] {
        Covering(offset, |data|, device.blockSize);
        CompleteWrite(was, device.blockSize, offset, data, kr, kw);
      }
  }

  lemma CompleteWrite(image: seq<Byte>, blockSize: nat, offset: nat, data: seq<Byte>, kr: int, kw: int)
    requires blockSize > 0 && data != [] && offset + |data| <= Capacity(|image|, blockSize)
    requires |image| < TWO_TO_THE_64 && Allowed(|image|, blockSize, offset, |data|, kr, kw)
    requires kw == BlocksTouched(offset, |data|, blockSize) && (IsPartial(offset, |data|, blockSize) ==> kr == kw)
    ensures Written(image, blockSize, offset, data, kr, kw) == Splice(image, offset, data)
  {
    InRangeBlocks(offset, |data|, blockSize, |image|);
    Covering(offset, |data|, blockSize);
    NothingIsLost(image, blockSize, offset, |data|, kr, kw);
    WriteIsExact(image, blockSize, offset, data, kr, kw);
    ReportIsTrue(offset, |data|, blockSize, kw);
    assert data[..|data|] == data;
  }
}
