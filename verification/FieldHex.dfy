/** Field elements and their one canonical spelling: replay/src/field.rs. */
module FieldHex {
  import opened Basics
  import opened ByteCodec
  import opened Text

  /** The BN254 scalar field order. */
  const ORDER: nat := 21888242871839275222246405745257275088548364400416034343698204186575808495617

  type Fr = n: nat | n < ORDER

  datatype FieldError = EmptyHex | NotHex | NotInField

  // ----- trimming -------------------------------------------------------------------

  /** The characters with the Unicode White_Space property. */
  predicate IsWhite(c: char) {
    || '\t' <= c <= '\r' || c == ' ' || c == '\U{0085}' || c == '\U{00A0}' || c == '\U{1680}'
    || '\U{2000}' <= c <= '\U{200A}' || c == '\U{2028}' || c == '\U{2029}' || c == '\U{202F}'
    || c == '\U{205F}' || c == '\U{3000}'
  }

  function TrimStart(s: string): string {
    if s != [] && IsWhite(s[0]) then TrimStart(s[1..]) else s
  }

  function TrimEnd(s: string): string {
    if s != [] && IsWhite(s[|s| - 1]) then TrimEnd(s[..|s| - 1]) else s
  }

  function Trim(s: string): string { TrimEnd(TrimStart(s)) }

  /** Every leading copy of `prefix` taken off. */
  function StripPrefixes(s: string, prefix: string): string
    requires prefix != []
    decreases |s|
  {
    if prefix <= s then StripPrefixes(s[|prefix|..], prefix) else s
  }

  function StripSuffixes(s: string, c: char): string {
    if s != [] && s[|s| - 1] == c then StripSuffixes(s[..|s| - 1], c) else s
  }

  // ----- hexadecimal numerals ---------------------------------------------------------

  predicate IsHexDigit(c: char) { '0' <= c <= '9' || 'a' <= c <= 'f' || 'A' <= c <= 'F' }

  function HexDigitValue(c: char): nat
    requires IsHexDigit(c)
  {
    if c <= '9' then (c - '0') as nat else if c <= 'F' then (c - 'A') as nat + 10 else (c - 'a') as nat + 10
  }

  predicate AllHex(s: string) { forall i :: 0 <= i < |s| ==> IsHexDigit(s[i]) }

  function HexNumber(s: string): nat
    requires AllHex(s)
  {
    if s == [] then 0 else HexNumber(s[..|s| - 1]) * 16 + HexDigitValue(s[|s| - 1])
  }

  /** The numeral inside a spelling: white space, then every 0x, then every 0X taken off. */
  function Clean(s: string): string { StripPrefixes(StripPrefixes(Trim(s), "0x"), "0X") }

  function FrFromHex(s: string): Result<Fr, FieldError> {
    var clean := Clean(s);
    if clean == [] then Err(EmptyHex)
    else if !AllHex(clean) then Err(NotHex)
    else if HexNumber(clean) >= ORDER then Err(NotInField)
    else Ok(HexNumber(clean))
  }

  // ----- the 32-byte form ---------------------------------------------------------------

  function ShiftBytes(v: nat, k: nat): nat { if k == 0 then v else ShiftBytes(v / 256, k - 1) }

  function ByteOf(v: nat, k: nat): nat { ShiftBytes(v, k) % 256 }

  /** `into_repr`: the four 64-bit limbs, least significant first. */
  function Limb(v: nat, i: nat): (r: nat)
    ensures r < U64_LIMIT
  {
    ShiftBytes(v, 8 * i) % U64_LIMIT
  }

  function LittleEndian(width: nat, v: nat): (r: Bytes)
    ensures |r| == width
  {
    if width == 0 then [] else [(v % 256) as byte] + LittleEndian(width - 1, v / 256)
  }

  lemma {:induction false} LittleEndianAt(width: nat, v: nat, k: nat)
    requires k < width
    ensures LittleEndian(width, v)[k] as nat == ByteOf(v, k)
  {
    if k > 0 { LittleEndianAt(width - 1, v / 256, k - 1); }
  }

  lemma {:induction false} BigEndianAt(width: nat, v: nat, k: nat)
    requires k < width
    ensures BigEndian(width, v)[width - 1 - k] as nat == ByteOf(v, k)
  {
    if k > 0 {
      BigEndianAt(width - 1, v / 256, k - 1);
      assert BigEndian(width, v)[width - 1 - k] == BigEndian(width - 1, v / 256)[width - 1 - k];
    }
  }

  lemma {:induction false} ShiftTwice(v: nat, a: nat, b: nat)
    ensures ShiftBytes(ShiftBytes(v, a), b) == ShiftBytes(v, a + b)
  {
    if a > 0 { ShiftTwice(v / 256, a - 1, b); }
  }

  /** Cutting to `256 * p` and then dropping a byte is dropping a byte and then cutting to `p`. */
  lemma {:induction false} CutThenShift(n: nat, p: nat)
    requires p > 0 && 256 * p > 0
    ensures (n % (256 * p)) % 256 == n % 256
    ensures (n % (256 * p)) / 256 == (n / 256) % p
  {
    var q, r := n / (256 * p), n % (256 * p);
    var a, b := r / 256, r % 256;
    assert n == 256 * (p * q + a) + b by { assert (256 * p) * q == 256 * (p * q); }
    assert n / 256 == p * q + a && n % 256 == b;
    assert a < p;
    AddMultiple(p, q, a);
  }

  lemma {:induction false} LowBytes(n: nat, k: nat, j: nat)
    requires j < k && Pow256(k) > 0
    ensures ByteOf(n % Pow256(k), j) == ByteOf(n, j)
  {
    PowPositive(k - 1);
    CutThenShift(n, Pow256(k - 1));
    if j > 0 { LowBytes(n / 256, k - 1, j - 1); }
  }

  lemma {:induction false} PowPositive(k: nat)
    ensures Pow256(k) > 0
  {
    if k > 0 { PowPositive(k - 1); }
  }

  /** Byte `j` of limb `i` is byte `8 i + j` of the number. */
  lemma {:induction false} LimbByte(v: nat, i: nat, j: nat)
    requires j < 8
    ensures LittleEndian(8, Limb(v, i))[j] as nat == ByteOf(v, 8 * i + j)
  {
    LittleEndianAt(8, Limb(v, i), j);
    U64Width();
    LowBytes(ShiftBytes(v, 8 * i), 8, j);
    ShiftTwice(v, 8 * i, j);
  }

  /** Limb by limb into a buffer, then the buffer reversed: the 32-byte big-endian number. */
  method FrToBytes32(f: Fr) returns (r: Bytes)
    ensures r == BigEndian(32, f)
  {
    var bytes := new byte[32](_ => 0);
    for i := 0 to 4
      invariant forall k :: 0 <= k < 8 * i ==> bytes[k] as nat == ByteOf(f, k)
    {
      var limbBytes := LittleEndian(8, Limb(f, i));
      for j := 0 to 8
        invariant forall k :: 0 <= k < 8 * i + j ==> bytes[k] as nat == ByteOf(f, k)
      {
        LimbByte(f, i, j);
        bytes[8 * i + j] := limbBytes[j];
      }
    }
    ReverseInPlace(bytes);
    r := bytes[..];
    forall k | 0 <= k < 32 ensures r[k] == BigEndian(32, f)[k] { BigEndianAt(32, f, 31 - k); }
  }

  method ReverseInPlace(a: array<byte>)
    modifies a
    ensures forall k :: 0 <= k < a.Length ==> a[k] == old(a[a.Length - 1 - k])
  {
    var n, i := a.Length, 0;
    while i < n / 2
      invariant 0 <= i <= n / 2
      invariant forall k :: 0 <= k < i ==> a[k] == old(a[n - 1 - k]) && a[n - 1 - k] == old(a[k])
      invariant forall k :: i <= k < n - i ==> a[k] == old(a[k])
    {
      a[i], a[n - 1 - i] := a[n - 1 - i], a[i];
      i := i + 1;
    }
  }

  // ----- the canonical spelling -----------------------------------------------------------

  function FrToHex(f: Fr): string { ToHex(BigEndian(32, f)) }

  /** The numeral the wallet's own spellings carry: `Fr(` and `)` come off as well. */
  function Unwrapped(s: string): string {
    Trim(StripSuffixes(StripPrefixes(Trim(s), "Fr("), ')'))
  }

  function NormalizeBytes32Hex(s: string): Result<string, FieldError> {
    match FrFromHex(Unwrapped(s))
    case Ok(f) => Ok(FrToHex(f))
    case Err(e) => Err(e)
  }
}
