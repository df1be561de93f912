/** Byte buffers and the big-endian integer codec of anchor-core/bytes.ts. */
module ByteCodec {
  import opened Basics

  newtype byte = x: int | 0 <= x < 256

  type Bytes = seq<byte>

  const ZERO32: Digest := [0, 0, 0, 0, 0, 0, 0, 0, 0, 0, 0, 0, 0, 0, 0, 0,
                            0, 0, 0, 0, 0, 0, 0, 0, 0, 0, 0, 0, 0, 0, 0, 0]

  type Digest = d: Bytes | |d| == 32 witness seq(32, _ => 0 as byte)

  type Hash = Bytes -> Digest

  const U64_LIMIT: int := 0x1_0000_0000_0000_0000

  // ----- bit operations on unbounded integers ---------------------------------

  function BitAnd(a: nat, b: nat): nat {
    if a == 0 || b == 0 then 0 else (a % 2) * (b % 2) + 2 * BitAnd(a / 2, b / 2)
  }

  function BitOr(a: nat, b: nat): nat
    decreases a + b
  {
    if a == 0 then b
    else if b == 0 then a
    else (if a % 2 + b % 2 > 0 then 1 else 0) + 2 * BitOr(a / 2, b / 2)
  }

  function BitXor(a: nat, b: nat): nat
    decreases a + b
  {
    if a == 0 then b
    else if b == 0 then a
    else (if a % 2 == b % 2 then 0 else 1) + 2 * BitXor(a / 2, b / 2)
  }

  function ShiftLeft(v: nat, k: nat): nat {
    v * Pow2(k)
  }

  function ShiftRight(v: nat, k: nat): nat {
    if k == 0 then v else ShiftRight(v / 2, k - 1)
  }

  /** Masking with `2^k - 1` keeps the low `k` bits; shifting right by `k` drops them. */
  lemma {:induction false} LowBits(v: nat, k: nat)
    ensures BitAnd(v, Pow2(k) - 1) + Pow2(k) * ShiftRight(v, k) == v
    ensures BitAnd(v, Pow2(k) - 1) < Pow2(k)
  {
    if k > 0 {
      LowBits(v / 2, k - 1);
      LowBitsStep(v, Pow2(k - 1), ShiftRight(v / 2, k - 1));
    }
  }

  lemma {:induction false} LowBitsStep(v: nat, half: nat, high: nat)
    requires half > 0
    requires BitAnd(v / 2, half - 1) + half * high == v / 2
    requires BitAnd(v / 2, half - 1) < half
    ensures BitAnd(v, 2 * half - 1) + (2 * half) * high == v
    ensures BitAnd(v, 2 * half - 1) < 2 * half
  {
    MaskOdd(v, half);
    MulAssoc(2, half, high);
  }

  lemma {:induction false} MaskOdd(v: nat, half: nat)
    requires half > 0
    ensures BitAnd(v, 2 * half - 1) == v % 2 + 2 * BitAnd(v / 2, half - 1)
  {
    var m := 2 * half - 1;
    assert m / 2 == half - 1 && m % 2 == 1;
    assert BitAnd(0, half - 1) == 0;
  }

  lemma MulAssoc(a: int, b: int, c: int)
    ensures (a * b) * c == a * (b * c)
  {}

  /** Or-ing `k` fresh bits into the space a left shift has cleared is addition. */
  lemma {:induction false} OrIntoCleared(v: nat, b: nat, k: nat)
    requires b < Pow2(k)
    ensures BitOr(ShiftLeft(v, k), b) == v * Pow2(k) + b
  {
    if k > 0 && v > 0 && b > 0 {
      var half := Pow2(k - 1);
      assert ShiftLeft(v, k) == 2 * (v * half) by { assert v * (2 * half) == 2 * (v * half); }
      OrIntoCleared(v, b / 2, k - 1);
    }
  }

  /** Xor-ing with all ones flips every bit. */
  lemma {:induction false} XorAllOnes(b: nat, k: nat)
    requires b < Pow2(k)
    ensures BitXor(b, Pow2(k) - 1) == Pow2(k) - 1 - b
  {
    if k > 0 {
      var half := Pow2(k - 1);
      XorAllOnes(b / 2, k - 1);
      assert (2 * half - 1) / 2 == half - 1 && (2 * half - 1) % 2 == 1;
    }
  }

  lemma EightBits(v: nat, b: nat)
    requires b < 256
    ensures BitAnd(v, 0xff) == v % 256 && ShiftRight(v, 8) == v / 256
    ensures BitOr(ShiftLeft(v, 8), b) == v * 256 + b
  {
    assert Pow2(8) == 256;
    MaskAndShift(v, 8, 256);
    ShiftAndOr(v, b, 8, 256);
  }

  lemma MaskAndShift(v: nat, k: nat, m: nat)
    requires m == Pow2(k)
    ensures BitAnd(v, m - 1) == v % m && ShiftRight(v, k) == v / m
  {
    LowBits(v, k);
    AddMultiple(m, ShiftRight(v, k), BitAnd(v, m - 1));
  }

  lemma NextMultiple(p: nat, q: nat)
    ensures p * (q + 1) == p * q + p
  {}

  lemma {:induction false} Apart(p: nat, d: nat, q: nat)
    ensures d < q ==> p * q >= p * d + p
  {
    if d < q {
      NextMultiple(p, q - 1);
      Apart(p, d, q - 1);
    }
  }

  lemma AddMultiple(p: nat, q: nat, a: nat)
    requires a < p
    ensures (p * q + a) / p == q && (p * q + a) % p == a
  {
    var d, r := (p * q + a) / p, (p * q + a) % p;
    assert p * q + a == p * d + r;
    Apart(p, d, q);
    Apart(p, q, d);
  }

  lemma ShiftAndOr(v: nat, b: nat, k: nat, m: nat)
    requires m == Pow2(k) && b < m
    ensures BitOr(ShiftLeft(v, k), b) == v * m + b
  {
    OrIntoCleared(v, b, k);
  }

  // ----- big-endian integers --------------------------------------------------

  function Pow256(w: nat): nat {
    if w == 0 then 1 else 256 * Pow256(w - 1)
  }

  function BigEndian(width: nat, v: nat): (r: Bytes)
    ensures |r| == width
  {
    if width == 0 then [] else BigEndian(width - 1, v / 256) + [(v % 256) as byte]
  }

  function FromBigEndian(b: Bytes): nat {
    if b == [] then 0 else FromBigEndian(b[..|b| - 1]) * 256 + b[|b| - 1] as nat
  }

  lemma {:induction false} DecodeEncodeInt(width: nat, v: nat)
    requires v < Pow256(width)
    ensures FromBigEndian(BigEndian(width, v)) == v
  {
    if width > 0 {
      DecodeEncodeInt(width - 1, v / 256);
      assert BigEndian(width, v)[..width - 1] == BigEndian(width - 1, v / 256);
    }
  }

  lemma {:induction false} EncodeDecodeInt(b: Bytes)
    ensures FromBigEndian(b) < Pow256(|b|)
    ensures BigEndian(|b|, FromBigEndian(b)) == b
  {
    if b != [] {
      EncodeDecodeInt(b[..|b| - 1]);
    }
  }

  lemma U64Width()
    ensures Pow256(8) == U64_LIMIT
  {}

  datatype RangeError = SeqOutOfRange(value: int)

  /** `u64be`: eight bytes filled from the least significant end. */
  method U64be(value: int) returns (r: Result<Bytes, RangeError>)
    ensures r == if 0 <= value < U64_LIMIT then Ok(BigEndian(8, value)) else Err(SeqOutOfRange(value))
  {
    if value < 0 || value > 0xffff_ffff_ffff_ffff {
      return Err(SeqOutOfRange(value));
    }
    var out := new byte[8](_ => 0);
    var v := value;
    var i := 7;
    while i >= 0
      invariant -1 <= i <= 7 && v >= 0
      invariant BigEndian(i + 1, v) + out[i + 1..] == BigEndian(8, value)
    {
      EightBits(v, 0);
      assert BigEndian(i + 1, v) == BigEndian(i, v / 256) + [(v % 256) as byte];
      ghost var done := out[i + 1..];
      out[i] := BitAnd(v, 0xff) as byte;
      assert out[i..] == [(v % 256) as byte] + done;
      v := ShiftRight(v, 8);
      i := i - 1;
    }
    assert out[..] == BigEndian(i + 1, v) + out[i + 1..];
    return Ok(out[..]);
  }

  lemma NextByte(bytes: Bytes, offset: nat, i: nat)
    requires offset + i < |bytes|
    ensures FromBigEndian(bytes[offset..offset + i + 1]) ==
              FromBigEndian(bytes[offset..offset + i]) * 256 + bytes[offset + i] as nat
  {
    assert bytes[offset..offset + i + 1][..i] == bytes[offset..offset + i];
  }

  /** `readU64be`: shift-and-or over eight bytes. */
  method ReadU64be(bytes: Bytes, offset: nat) returns (v: nat)
    requires offset + 8 <= |bytes|
    ensures v == FromBigEndian(bytes[offset..offset + 8])
  {
    hide BitOr, ShiftLeft;
    v := 0;
    for i := 0 to 8
      invariant v == FromBigEndian(bytes[offset..offset + i])
    {
      EightBits(v, bytes[offset + i] as nat);
      NextByte(bytes, offset, i);
      v := BitOr(ShiftLeft(v, 8), bytes[offset + i] as nat);
    }
  }

  // ----- buffers ----------------------------------------------------------------

  function Flatten(parts: seq<Bytes>): Bytes {
    if parts == [] then [] else Flatten(parts[..|parts| - 1]) + parts[|parts| - 1]
  }

  function TotalLength(parts: seq<Bytes>): nat {
    if parts == [] then 0 else TotalLength(parts[..|parts| - 1]) + |parts[|parts| - 1]|
  }

  lemma {:induction false} PrefixLength(parts: seq<Bytes>, i: nat)
    requires i <= |parts|
    ensures TotalLength(parts[..i]) == |Flatten(parts[..i])|
    ensures TotalLength(parts[..i]) <= TotalLength(parts)
    decreases |parts|
  {
    if i < |parts| {
      PrefixLength(parts[..|parts| - 1], i);
      assert parts[..|parts| - 1][..i] == parts[..i];
    } else {
      assert parts[..i] == parts;
      if parts != [] {
        PrefixLength(parts[..|parts| - 1], |parts| - 1);
        assert parts[..|parts| - 1][..|parts| - 1] == parts[..|parts| - 1];
      }
    }
  }

  method SumLengths(parts: seq<Bytes>) returns (total: nat)
    ensures total == TotalLength(parts)
  {
    total := 0;
    for i := 0 to |parts|
      invariant total == TotalLength(parts[..i])
    {
      assert parts[..i + 1][..i] == parts[..i];
      total := total + |parts[i]|;
    }
    assert parts[..|parts|] == parts;
  }

  method CopyInto(out: array<byte>, at: nat, p: Bytes)
    requires at + |p| <= out.Length
    modifies out
    ensures out[..at + |p|] == old(out[..at]) + p
  {
    for j := 0 to |p|
      invariant out[..at] == old(out[..at]) && out[at..at + j] == p[..j]
    {
      out[at + j] := p[j];
    }
    assert out[..at + |p|] == out[..at] + out[at..at + |p|];
  }

  /** `concat`: one buffer of the total length, each part copied to its running offset. */
  method Concat(parts: seq<Bytes>) returns (r: Bytes)
    ensures r == Flatten(parts)
  {
    var total := SumLengths(parts);
    var out := new byte[total](_ => 0);
    var at := 0;
    for i := 0 to |parts|
      invariant at == TotalLength(parts[..i]) <= out.Length == TotalLength(parts)
      invariant out[..at] == Flatten(parts[..i])
    {
      assert parts[..i + 1][..i] == parts[..i];
      PrefixLength(parts, i);
      PrefixLength(parts, i + 1);
      CopyInto(out, at, parts[i]);
      at := at + |parts[i]|;
    }
    assert parts[..|parts|] == parts;
    PrefixLength(parts, |parts|);
    return out[..];
  }

  /** `equalBytes`: length first, then byte by byte. */
  method EqualBytes(a: Bytes, b: Bytes) returns (r: bool)
    ensures r <==> a == b
  {
    if |a| != |b| { return false; }
    for i := 0 to |a|
      invariant a[..i] == b[..i]
    {
      if a[i] != b[i] { return false; }
    }
    assert a == a[..|a|] && b == b[..|b|];
    return true;
  }
}
