// The byte-sum checksum of the crash-dump settings block.
module SettingsChecksum {
  import opened Machine

  /** The sum of the bytes, as an unbounded integer. */
  function ByteSum(data: seq<u8>): (r: nat)
    ensures r <= 255 * |data|
  {
    if |data| == 0 then 0 else ByteSum(data[..|data| - 1]) + data[|data| - 1]
  }

  /** The checksum: the byte sum kept in a UINT32, so taken modulo 2^32. */
  function Checksum(data: seq<u8>): u32
  {
    ByteSum(data) % U32_LIMIT
  }

  /**
   * SettingsCalcCheckSum: adds each of the SizeInBytes bytes into a UINT32
   * accumulator that starts at 0.
   */
  method SettingsCalcCheckSum(data: seq<u8>) returns (chksum: u32)
    ensures chksum == Checksum(data)
  {
    chksum := 0;
    var i := 0;
    while i < |data|
      invariant 0 <= i <= |data|
      invariant chksum == ByteSum(data[..i]) % U32_LIMIT
    {
      assert data[..i + 1][..i] == data[..i];
      chksum := Add32(chksum, data[i]);
      i := i + 1;
    }
    assert data[..i] == data;
  }

  /** No bytes give checksum 0. */
  lemma ChecksumEmpty()
    ensures Checksum([]) == 0
  {
  }

  /** The byte sum of a concatenation is the sum of the parts' sums. */
  lemma {:induction false} ByteSumAppend(a: seq<u8>, b: seq<u8>)
    ensures ByteSum(a + b) == ByteSum(a) + ByteSum(b)
    decreases |b|
  {
    if |b| > 0 {
      var b' := b[..|b| - 1];
      assert (a + b)[..|a + b| - 1] == a + b';
      ByteSumAppend(a, b');
    } else {
      assert a + b == a;
    }
  }

  /** checksum(a ++ b) is checksum(a) + checksum(b) modulo 2^32. */
  lemma ChecksumAppend(a: seq<u8>, b: seq<u8>)
    ensures Checksum(a + b) == Add32(Checksum(a), Checksum(b))
  {
    ByteSumAppend(a, b);
    ModAdd(ByteSum(a), ByteSum(b));
  }

  lemma ModAdd(x: nat, y: nat)
    ensures (x + y) % U32_LIMIT == (x % U32_LIMIT + y % U32_LIMIT) % U32_LIMIT
  {
    var qx, qy := x / U32_LIMIT, y / U32_LIMIT;
    var rx, ry := x % U32_LIMIT, y % U32_LIMIT;
    assert x + y == (qx + qy) * U32_LIMIT + (rx + ry);
    if rx + ry < U32_LIMIT {
      ModUnique(x + y, qx + qy, rx + ry);
    } else {
      ModUnique(x + y, qx + qy + 1, rx + ry - U32_LIMIT);
    }
  }

  lemma ModUnique(n: int, q: int, r: int)
    requires 0 <= r < U32_LIMIT && n == q * U32_LIMIT + r
    ensures n % U32_LIMIT == r
  {
  }

  /** While 255 * n stays below 2^32 the accumulator never wraps: the checksum is the plain sum and at most 255 * n. */
  lemma ChecksumBound(data: seq<u8>)
    requires 255 * |data| < U32_LIMIT
    ensures Checksum(data) == ByteSum(data) <= 255 * |data|
  {
  }
}
