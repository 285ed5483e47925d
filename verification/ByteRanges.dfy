/** The flat view of a device: byte ranges of an image, and the blocks that cover a range. */
module ByteRanges {

  type Byte = b: int | 0 <= b < 256

  // ---------- blocks that cover a byte range ----------

  function FirstBlock(offset: nat, blockSize: nat): nat
    requires blockSize > 0
  {
    offset / blockSize
  }

  /** The number of blocks that the range touches; it is not empty. */
  function BlocksTouched(offset: nat, size: nat, blockSize: nat): nat
    requires blockSize > 0 && size > 0
  {
    Monotone(offset, offset + size - 1, blockSize);
    (offset + size - 1) / blockSize - offset / blockSize + 1
  }

  lemma Monotone(a: nat, b: nat, d: nat)
    requires a <= b && d > 0
    ensures a / d <= b / d
  {
    if a / d > b / d {
      assert a / d >= b / d + 1;
      MulMonotone(b / d + 1, a / d, d);
    }
  }

  lemma MulMonotone(a: nat, b: nat, d: nat)
    requires a <= b
    ensures a * d <= b * d
  {
  }

  /** Where the covering blocks begin and end. */
  lemma Covering(offset: nat, size: nat, blockSize: nat)
    requires blockSize > 0 && size > 0
    ensures var s, n := FirstBlock(offset, blockSize), BlocksTouched(offset, size, blockSize);
            && n > 0
            && s * blockSize + offset % blockSize == offset
            && (s + n - 1) * blockSize < offset + size <= (s + n) * blockSize
  {
    var e := (offset + size - 1) / blockSize;
    Monotone(offset, offset + size - 1, blockSize);
    assert e * blockSize <= offset + size - 1 < (e + 1) * blockSize by {
      assert (offset + size - 1) % blockSize + e * blockSize == offset + size - 1;
      assert (e + 1) * blockSize == e * blockSize + blockSize;
    }
  }

  lemma Distribute(s: nat, k: nat, blockSize: nat)
    ensures (s + k) * blockSize == s * blockSize + k * blockSize
  {
  }

  // ---------- the flat device ----------

  /** The image with the data laid over it from the offset on. */
  function Splice(image: seq<Byte>, offset: nat, data: seq<Byte>): (r: seq<Byte>)
    requires offset + |data| <= |image|
    ensures |r| == |image|
    ensures forall a | 0 <= a < |image| ::
              r[a] == if offset <= a < offset + |data| then data[a - offset] else image[a]
  {
    image[..offset] + data + image[offset + |data|..]
  }

  /** The bytes in the whole blocks of a device of this length. */
  function Capacity(length: nat, blockSize: nat): (c: nat)
    requires blockSize > 0
    ensures c <= length
  {
    WholeBlocks(length, blockSize);
    length / blockSize * blockSize
  }

  lemma WholeBlocks(length: nat, blockSize: nat)
    requires blockSize > 0
    ensures 0 <= length / blockSize * blockSize <= length
  {
    Monotone(0, length, blockSize);
    MulMonotone(0, length / blockSize, blockSize);
    assert length % blockSize + length / blockSize * blockSize == length;
  }

  datatype Call = Read(offset: nat, size: nat) | Write(offset: nat, data: seq<Byte>)

  /** The call stays inside the whole blocks of a device of this length. */
  predicate InRange(call: Call, length: nat, blockSize: nat)
    requires blockSize > 0
  {
    match call
    case Read(offset, size) => offset + size <= Capacity(length, blockSize)
    case Write(offset, data) => offset + |data| <= Capacity(length, blockSize)
  }

  predicate AllInRange(calls: seq<Call>, length: nat, blockSize: nat)
    requires blockSize > 0
  {
    forall i | 0 <= i < |calls| :: InRange(calls[i], length, blockSize)
  }

  /** The image after one call on a flat byte array. */
  function ImageAfter(image: seq<Byte>, call: Call, blockSize: nat): (r: seq<Byte>)
    requires blockSize > 0 && InRange(call, |image|, blockSize)
    ensures |r| == |image|
  {
    match call
    case Read(_, _) => image
    case Write(offset, data) => Splice(image, offset, data)
  }

  /** What the call hands back: the bytes of a read, nothing for a write. */
  function OutputOf(image: seq<Byte>, call: Call, blockSize: nat): seq<Byte>
    requires blockSize > 0 && InRange(call, |image|, blockSize)
  {
    match call
    case Read(offset, size) => image[offset..offset + size]
    case Write(_, _) => []
  }

  /** The image after the calls. */
  function FlatImage(image: seq<Byte>, calls: seq<Call>, blockSize: nat): (r: seq<Byte>)
    requires blockSize > 0 && AllInRange(calls, |image|, blockSize)
    ensures |r| == |image|
  {
    if calls == [] then image
    else
      var n := |calls| - 1;
      assert InRange(calls[n], |image|, blockSize);
      ImageAfter(FlatImage(image, calls[..n], blockSize), calls[n], blockSize)
  }

  /** What the calls hand back. */
  function FlatOutputs(image: seq<Byte>, calls: seq<Call>, blockSize: nat): (r: seq<seq<Byte>>)
    requires blockSize > 0 && AllInRange(calls, |image|, blockSize)
    ensures |r| == |calls|
  {
    if calls == [] then []
    else
      var n := |calls| - 1;
      assert InRange(calls[n], |image|, blockSize);
      FlatOutputs(image, calls[..n], blockSize) +
      [OutputOf(FlatImage(image, calls[..n], blockSize), calls[n], blockSize)]
  }

  /** One more call. */
  lemma FlatStep(image: seq<Byte>, calls: seq<Call>, call: Call, blockSize: nat)
    requires blockSize > 0 && AllInRange(calls + [call], |image|, blockSize)
    ensures AllInRange(calls, |image|, blockSize) && InRange(call, |image|, blockSize)
    ensures FlatImage(image, calls + [call], blockSize) ==
            ImageAfter(FlatImage(image, calls, blockSize), call, blockSize)
    ensures FlatOutputs(image, calls + [call], blockSize) ==
            FlatOutputs(image, calls, blockSize) + [OutputOf(FlatImage(image, calls, blockSize), call, blockSize)]
  {
    hide InRange, ImageAfter, OutputOf;
    var all := calls + [call];
    assert all[..|calls|] == calls && all[|calls|] == call;
    assert InRange(all[|calls|], |image|, blockSize);
    forall i | 0 <= i < |calls| ensures InRange(calls[i], |image|, blockSize) {
      assert all[i] == calls[i];
    }
  }

  /** The byte that the latest covering write left at address a. */
  function Latest(calls: seq<Call>, a: nat, initial: Byte): Byte {
    if calls == [] then initial
    else
      match calls[|calls| - 1]
      case Write(offset, data) =>
        if offset <= a < offset + |data| then data[a - offset] else Latest(calls[..|calls| - 1], a, initial)
      case Read(_, _) => Latest(calls[..|calls| - 1], a, initial)
  }

  /** A run leaves at every address the latest byte written there, and every read returns the latest
      bytes of its range. */
  lemma {:induction false} RunsKeepLatest(image: seq<Byte>, calls: seq<Call>, blockSize: nat)
    requires blockSize > 0 && AllInRange(calls, |image|, blockSize)
    ensures forall a | 0 <= a < |image| :: FlatImage(image, calls, blockSize)[a] == Latest(calls, a, image[a])
  {
    if calls != [] {
      var n := |calls| - 1;
      RunsKeepLatest(image, calls[..n], blockSize);
      assert InRange(calls[n], |image|, blockSize);
      assert AllInRange(calls[..n], |image|, blockSize);
    }
  }

  lemma {:induction false} OutputAt(image: seq<Byte>, calls: seq<Call>, blockSize: nat, k: nat)
    requires blockSize > 0 && AllInRange(calls, |image|, blockSize)
    requires k < |calls| && calls[k].Read?
    ensures calls[k].offset + calls[k].size <= |image|
    ensures FlatOutputs(image, calls, blockSize)[k] ==
            FlatImage(image, calls[..k], blockSize)[calls[k].offset..calls[k].offset + calls[k].size]
    decreases |calls|
  {
    assert InRange(calls[k], |image|, blockSize);
    var n := |calls| - 1;
    var before := calls[..n];
    assert calls == before + [calls[n]];
    FlatStep(image, before, calls[n], blockSize);
    hide FlatImage, FlatOutputs, AllInRange;
    if k < n {
      OutputAt(image, before, blockSize, k);
      assert before[..k] == calls[..k];
    }
  }

  lemma ReadsSeeLatest(image: seq<Byte>, calls: seq<Call>, blockSize: nat, k: nat)
    requires blockSize > 0 && AllInRange(calls, |image|, blockSize)
    requires k < |calls| && calls[k].Read?
    ensures var Read(offset, size) := calls[k];
            var bytes := FlatOutputs(image, calls, blockSize)[k];
            && |bytes| == size
            && offset + size <= |image|
            && forall i | 0 <= i < size :: bytes[i] == Latest(calls[..k], offset + i, image[offset + i])
  {
    hide InRange, FlatImage, FlatOutputs, Latest;
    OutputAt(image, calls, blockSize, k);
    RunsKeepLatest(image, calls[..k], blockSize);
  }
}
