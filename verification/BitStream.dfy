/** Bit strings, the values they spell from the most significant bit down, and the bytes they pack into.
    Source: web/src/lib/qrcode.js, lines 1384-1433. */
module BitStream {
  import opened Wrappers
  import opened Bits
  import opened Gf256

  type BitString = seq<bool>

  /** The `len` lowest bits of `val`, most significant first */
  function BitsOf(val: nat, len: nat): (b: BitString)
    ensures |b| == len
  {
    if len == 0 then [] else BitsOf(val / 2, len - 1) + [val % 2 == 1]
  }

  /** The number a bit string spells */
  function ValueOf(b: BitString): (v: nat) {
    if b == [] then 0 else 2 * ValueOf(b[..|b| - 1]) + (if b[|b| - 1] then 1 else 0)
  }

  function ZeroBits(n: nat): (z: BitString)
    ensures |z| == n && forall i :: 0 <= i < n ==> !z[i]
  {
    seq(n, _ => false)
  }

  lemma {:induction false} ValueOfBound(b: BitString)
    ensures ValueOf(b) < Pow2(|b|)
  {
    if b != [] {
      ValueOfBound(b[..|b| - 1]);
    }
  }

  /** A value survives being written in `len` bits exactly if it fits. */
  lemma {:induction false} ValueRoundTrip(val: nat, len: nat)
    ensures ValueOf(BitsOf(val, len)) == val <==> val < Pow2(len)
  {
    ValueOfBound(BitsOf(val, len));
    if len > 0 && val < Pow2(len) {
      ValueRoundTrip(val / 2, len - 1);
      assert BitsOf(val, len)[..len - 1] == BitsOf(val / 2, len - 1);
    }
  }

  lemma {:induction false} BitsRoundTrip(b: BitString)
    ensures BitsOf(ValueOf(b), |b|) == b
  {
    if b != [] {
      BitsRoundTrip(b[..|b| - 1]);
    }
  }

  /** Bit k of the string is bit len - 1 - k of the number. */
  lemma {:induction false} BitsOfAt(val: nat, len: nat, k: nat)
    requires k < len
    ensures BitsOf(val, len)[k] == (val / Pow2(len - 1 - k) % 2 == 1)
  {
    if k < len - 1 {
      BitsOfAt(val / 2, len - 1, k);
      var p := Pow2(len - 2 - k);
      QuotientOfHalf(val, p);
    }
  }

  lemma QuotientOfHalf(val: nat, p: nat)
    requires p > 0
    ensures (val / 2) / p == val / (2 * p)
  {
    var q, r := (val / 2) / p, (val / 2) % p;
    assert val / 2 == q * p + r;
    assert val == q * (2 * p) + (2 * r + val % 2);
    ModUnique(val, 2 * p, q, 2 * r + val % 2);
  }

  // ---------- Packing into bytes ----------

  /** The byte whose leading bits are b, the rest being zero */
  function ByteOf(b: BitString): (v: Byte)
    requires |b| <= 8
  {
    ValueOfBound(b + ZeroBits(8 - |b|));
    Pow2Steps();
    ValueOf(b + ZeroBits(8 - |b|))
  }

  /** Eight bits to the byte, the last byte filled up with zeros */
  function Pack(b: BitString): (bytes: seq<Byte>)
    ensures |bytes| == (|b| + 7) / 8
  {
    if |b| == 0 then [] else if |b| <= 8 then [ByteOf(b)] else [ByteOf(b[..8])] + Pack(b[8..])
  }

  function Unpack(bytes: seq<Byte>): (b: BitString)
    ensures |b| == 8 * |bytes|
  {
    if bytes == [] then [] else BitsOf(bytes[0], 8) + Unpack(bytes[1..])
  }

  /** Unpacking gives back the bits, followed by the fill. */
  lemma {:induction false} UnpackPack(b: BitString)
    ensures Unpack(Pack(b)) == b + ZeroBits(8 * ((|b| + 7) / 8) - |b|)
  {
    if |b| == 0 {
    } else if |b| <= 8 {
      BitsRoundTrip(b + ZeroBits(8 - |b|));
      assert Pack(b)[1..] == [];
    } else {
      UnpackPack(b[8..]);
      BitsRoundTrip(b[..8] + ZeroBits(0));
      assert b[..8] + ZeroBits(0) == b[..8];
      assert Pack(b)[1..] == Pack(b[8..]);
      assert b == b[..8] + b[8..];
    }
  }

  lemma {:induction false} PackUnpack(bytes: seq<Byte>)
    ensures Pack(Unpack(bytes)) == bytes
  {
    if bytes != [] {
      PackUnpack(bytes[1..]);
      var b := Unpack(bytes);
      assert b[..8] == BitsOf(bytes[0], 8) && b[8..] == Unpack(bytes[1..]);
      Pow2Steps();
      ValueRoundTrip(bytes[0], 8);
      assert b[..8] + ZeroBits(0) == b[..8];
    }
  }

  lemma SubSlice<T>(s: seq<T>, n: nat, lo: nat, hi: nat)
    requires lo <= hi && n + hi <= |s|
    ensures s[n..][lo..hi] == s[n + lo..n + hi]
  {
  }

  lemma {:induction false} PackAt(b: BitString, k: nat)
    requires 8 * k < |b|
    ensures Pack(b)[k] == ByteOf(b[8 * k..if 8 * k + 8 <= |b| then 8 * k + 8 else |b|])
  {
    if k == 0 {
      assert |b| <= 8 ==> b[0..|b|] == b;
    } else {
      PackAt(b[8..], k - 1);
      var e := if 8 * k + 8 <= |b| then 8 * k + 8 else |b|;
      SubSlice(b, 8, 8 * (k - 1), e - 8);
    }
  }

  /** Bit i of a byte list: (bytes[i >>> 3] >>> (7 - (i & 7))) & 1 */
  lemma {:induction false} UnpackAt(bytes: seq<Byte>, i: nat)
    requires i < 8 * |bytes|
    ensures Unpack(bytes)[i] == (bytes[i / 8] / Pow2(7 - i % 8) % 2 == 1)
  {
    hide Pow2, BitsOf;
    assert Unpack(bytes) == BitsOf(bytes[0], 8) + Unpack(bytes[1..]);
    if i < 8 {
      BitsOfAt(bytes[0], 8, i);
    } else {
      UnpackAt(bytes[1..], i - 8);
      hide Unpack;
      assert Unpack(bytes)[i] == Unpack(bytes[1..])[i - 8];
      assert bytes[1..][(i - 8) / 8] == bytes[i / 8];
    }
  }

  // ---------- The buffer ----------

  lemma LastBit(b: BitString, bit: bool)
    ensures ValueOf(b + [bit]) == 2 * ValueOf(b) + (if bit then 1 else 0)
  {
    assert (b + [bit])[..|b|] == b;
  }

  lemma {:induction false} ZerosValue(n: nat)
    ensures ValueOf(ZeroBits(n)) == 0
  {
    if n > 0 {
      assert ZeroBits(n)[..n - 1] == ZeroBits(n - 1);
      ZerosValue(n - 1);
    }
  }

  lemma {:induction false} SingleBitValue(n: nat, bit: bool, k: nat)
    ensures ValueOf(ZeroBits(n) + [bit] + ZeroBits(k)) == if bit then Pow2(k) else 0
  {
    if k == 0 {
      assert (ZeroBits(n) + [bit] + ZeroBits(0))[..n] == ZeroBits(n);
      ZerosValue(n);
    } else {
      SingleBitValue(n, bit, k - 1);
      assert (ZeroBits(n) + [bit] + ZeroBits(k))[..n + k] == ZeroBits(n) + [bit] + ZeroBits(k - 1);
    }
  }

  /** Bitwise or, seen on bit strings */
  lemma {:induction false} OrValues(p: BitString, q: BitString, r: BitString)
    requires |p| == |q| == |r|
    requires forall i :: 0 <= i < |r| ==> r[i] == (p[i] || q[i])
    ensures Or(ValueOf(p), ValueOf(q)) == ValueOf(r)
  {
    if p != [] {
      var k := |p| - 1;
      OrValues(p[..k], q[..k], r[..k]);
      OrStep(ValueOf(p[..k]), p[k], ValueOf(q[..k]), q[k]);
    }
  }

  lemma OrStep(x: nat, a: bool, y: nat, b: bool)
    ensures Or(2 * x + (if a then 1 else 0), 2 * y + (if b then 1 else 0)) == 2 * Or(x, y) + (if a || b then 1 else 0)
  {
    var u, v := if a then 1 else 0, if b then 1 else 0;
    assert (2 * x + u) / 2 == x && (2 * y + v) / 2 == y;
  }

  lemma ByteOfValue(b: BitString)
    requires |b| <= 8
    ensures ByteOf(b) == ValueOf(b + ZeroBits(8 - |b|))
  {
  }

  lemma OrBit(b: BitString, bit: bool, k: nat)
    ensures Or(ValueOf(b + ZeroBits(k + 1)), if bit then Pow2(k) else 0) == ValueOf(b + [bit] + ZeroBits(k))
  {
    hide Or, ValueOf, Pow2;
    var p, q, r := b + ZeroBits(k + 1), ZeroBits(|b|) + [bit] + ZeroBits(k), b + [bit] + ZeroBits(k);
    SingleBitValue(|b|, bit, k);
    OrValues(p, q, r);
  }

  /** Adding one bit to a partly filled byte. */
  lemma ByteOfNext(b: BitString, bit: bool)
    requires |b| < 8
    ensures ByteOf(b + [bit]) == Or(ByteOf(b), if bit then Pow2(7 - |b|) else 0)
  {
    hide ByteOf, Or, ValueOf, Pow2;
    ByteOfValue(b);
    ByteOfValue(b + [bit]);
    OrBit(b, bit, 7 - |b|);
  }

  lemma EmptyByte()
    ensures ByteOf([]) == 0
  {
    ZerosValue(8);
    assert [] + ZeroBits(8) == ZeroBits(8);
  }

  const UINT32 := 0x1_0000_0000

  class BitBuffer {
    var bitData: BitString

    constructor ()
      ensures bitData == []
    {
      bitData := [];
    }

    /** All bytes, the last one filled up with zero bits. */
    method GetBytes() returns (result: seq<Byte>)
      ensures result == Pack(bitData)
    {
      var numBytes := (|bitData| + 7) / 8;
      result := seq(numBytes, _ => 0);
      EmptyByte();
      hide ByteOf, Or, Pow2;
      for i := 0 to |bitData|
        invariant |result| == numBytes
        invariant forall m :: 0 <= m < numBytes ==> result[m] == ByteOf(Chunk(m, i))
      {
        var m := i / 8;
        ChunkNext(i);
        ByteOfNext(Chunk(m, i), bitData[i]);
        result := result[m := Or(result[m], if bitData[i] then Pow2(7 - i % 8) else 0)];
      }
      forall m | 0 <= m < numBytes
        ensures result[m] == Pack(bitData)[m]
      {
        PackAt(bitData, m);
        var e := if 8 * m + 8 <= |bitData| then 8 * m + 8 else |bitData|;
        assert Chunk(m, |bitData|) == bitData[8 * m..e];
      }
    }

    lemma ChunkNext(i: nat)
      requires i < |bitData|
      ensures |Chunk(i / 8, i)| == i % 8
      ensures Chunk(i / 8, i + 1) == Chunk(i / 8, i) + [bitData[i]]
      ensures forall n: nat :: n != i / 8 ==> Chunk(n, i + 1) == Chunk(n, i)
    {
    }

    /** Those of the first n bits that belong to byte m */
    function Chunk(m: nat, n: nat): (c: BitString)
      requires n <= |bitData|
      reads this
      ensures |c| <= 8
    {
      if n <= 8 * m then [] else bitData[8 * m..if n <= 8 * m + 8 then n else 8 * m + 8]
    }

    /** Appends the `len` lowest bits of a value, which must fit. Shifts see the value as 32 bits. */
    method AppendBits(val: int, len: int) returns (r: Result<()>)
      modifies this
      ensures r.Ok? <==> 0 <= len <= 32 && val % UINT32 < Pow2(len)
      ensures r.Ok? ==> bitData == old(bitData) + BitsOf(val % UINT32, len)
      ensures r.Err? ==> bitData == old(bitData)
    {
      hide BitsOf, Pow2;
      var v := val % UINT32;
      if len < 0 || len > 32 || (len < 32 && v / Pow2(len) != 0) {
        if 0 <= len < 32 {
          QuotientZero(v, Pow2(len));
        }
        return Err("Value out of range");
      }
      if len < 32 {
        QuotientZero(v, Pow2(len));
      } else {
        Pow32();
      }
      var i := len - 1;
      ghost var bits := BitsOf(v, len);
      while i >= 0
        invariant -1 <= i < len
        invariant bitData == old(bitData) + bits[..len - 1 - i]
      {
        BitsOfAt(v, len, len - 1 - i);
        assert bits[..len - i] == bits[..len - 1 - i] + [bits[len - 1 - i]];
        bitData := bitData + [v / Pow2(i) % 2 == 1];
        i := i - 1;
      }
      return Ok(());
    }

    method AppendData(bits: BitString)
      modifies this
      ensures bitData == old(bitData) + bits
    {
      for k := 0 to |bits|
        invariant bitData == old(bitData) + bits[..k]
      {
        bitData := bitData + [bits[k]];
      }
    }
  }

  lemma QuotientZero(v: nat, p: nat)
    requires p > 0
    ensures v / p == 0 <==> v < p
  {
    if v < p {
      ModUnique(v, p, 0, v);
    }
  }

  lemma Pow32()
    ensures Pow2(32) == UINT32
  {
    Pow2Steps();
    Pow2Adds(8, 8);
    Pow2Adds(16, 16);
  }
}
