/** Entity ids: hexadecimal, decimal and zero-padded decimal text, and its byte order. */
module Text {
  import opened ByteCodec

  // ----- hexadecimal -----------------------------------------------------------

  function HexDigit(n: nat): char
    requires n < 16
  {
    if n < 10 then '0' + n as char else 'a' + (n - 10) as char
  }

  function HexDigits(b: Bytes): (r: string)
    ensures |r| == 2 * |b|
  {
    if b == [] then []
    else HexDigits(b[..|b| - 1]) + [HexDigit(b[|b| - 1] as nat / 16), HexDigit(b[|b| - 1] as nat % 16)]
  }

  function ToHex(b: Bytes): (r: string)
    ensures |r| == 2 + 2 * |b|
  {
    "0x" + HexDigits(b)
  }

  lemma {:induction false} HexDigitsInjective(a: Bytes, b: Bytes)
    requires HexDigits(a) == HexDigits(b)
    ensures a == b
    decreases |a|
  {
    if a != [] && b != [] {
      var s, t := HexDigits(a), HexDigits(b);
      var x, y := a[|a| - 1], b[|b| - 1];
      assert s[|s| - 2] == HexDigit(x as nat / 16) && t[|t| - 2] == HexDigit(y as nat / 16);
      assert s[|s| - 1] == HexDigit(x as nat % 16) && t[|t| - 1] == HexDigit(y as nat % 16);
      assert x == y;
      assert s[..|s| - 2] == HexDigits(a[..|a| - 1]) && t[..|t| - 2] == HexDigits(b[..|b| - 1]);
      HexDigitsInjective(a[..|a| - 1], b[..|b| - 1]);
      assert a == a[..|a| - 1] + [x] && b == b[..|b| - 1] + [y];
    }
  }

  lemma {:induction false} ToHexInjective(a: Bytes, b: Bytes)
    requires ToHex(a) == ToHex(b)
    ensures a == b
  {
    assert HexDigits(a) == ToHex(a)[2..] && HexDigits(b) == ToHex(b)[2..];
    HexDigitsInjective(a, b);
  }

  // ----- decimal -----------------------------------------------------------------

  function DecimalDigit(n: nat): char
    requires n < 10
  {
    '0' + n as char
  }

  predicate IsDigit(c: char) { '0' <= c <= '9' }

  function DigitValue(c: char): nat
    requires IsDigit(c)
  {
    (c - '0') as nat
  }

  predicate AllDigits(s: string) { forall i :: 0 <= i < |s| ==> IsDigit(s[i]) }

  function Decimal(n: nat): (r: string)
    ensures |r| > 0
  {
    if n < 10 then [DecimalDigit(n)] else Decimal(n / 10) + [DecimalDigit(n % 10)]
  }

  function Value(s: string): nat
    requires AllDigits(s)
  {
    if s == [] then 0 else Value(s[..|s| - 1]) * 10 + DigitValue(s[|s| - 1])
  }

  lemma {:induction false} DecimalValue(n: nat)
    ensures AllDigits(Decimal(n)) && Value(Decimal(n)) == n
  {
    if n < 10 {
      assert Decimal(n)[..0] == [];
    } else {
      DecimalValue(n / 10);
      assert Decimal(n)[..|Decimal(n)| - 1] == Decimal(n / 10);
    }
  }

  // ----- zero padding ----------------------------------------------------------------

  const ID_WIDTH: nat := 12

  function Zeros(k: nat): (r: string)
    ensures |r| == k && AllDigits(r)
  {
    seq(k, _ => '0')
  }

  function Padded(n: nat): (r: string)
    ensures |r| >= ID_WIDTH
  {
    var s := Decimal(n);
    if |s| >= ID_WIDTH then s else Zeros(ID_WIDTH - |s|) + s
  }

  /** `padded`: a zero in front until the text is wide enough. */
  method PadId(n: nat) returns (s: string)
    ensures s == Padded(n)
  {
    s := Decimal(n);
    ghost var k := 0;
    while |s| < ID_WIDTH
      invariant s == Zeros(k) + Decimal(n)
      invariant |s| <= ID_WIDTH || k == 0
      decreases ID_WIDTH - |s|
    {
      s := ['0'] + s;
      k := k + 1;
    }
  }

  lemma {:induction false} LeadingZeros(k: nat, s: string)
    requires AllDigits(s)
    ensures AllDigits(Zeros(k) + s) && Value(Zeros(k) + s) == Value(s)
    decreases |s| + k
  {
    var t := Zeros(k) + s;
    if s != [] {
      LeadingZeros(k, s[..|s| - 1]);
      assert t[..|t| - 1] == Zeros(k) + s[..|s| - 1];
    } else if k > 0 {
      LeadingZeros(k - 1, s);
      assert t[..|t| - 1] == Zeros(k - 1) + s;
    } else {
      assert t == [];
    }
  }

  lemma {:induction false} PaddedValue(n: nat)
    ensures AllDigits(Padded(n)) && Value(Padded(n)) == n
  {
    DecimalValue(n);
    if |Decimal(n)| < ID_WIDTH { LeadingZeros(ID_WIDTH - |Decimal(n)|, Decimal(n)); }
  }

  /** Different numbers have different ids, whatever their size. */
  lemma {:induction false} PaddedInjective(m: nat, n: nat)
    requires Padded(m) == Padded(n)
    ensures m == n
  {
    PaddedValue(m);
    PaddedValue(n);
  }

  // ----- byte order of text --------------------------------------------------------------

  predicate LexLess(a: string, b: string) {
    b != [] && (a == [] || a[0] < b[0] || (a[0] == b[0] && LexLess(a[1..], b[1..])))
  }

  predicate LexLeq(a: string, b: string) { a == b || LexLess(a, b) }

  /** For texts of equal length the order can be decided from the right. */
  lemma {:induction false} LexFromRight(a: string, b: string)
    requires |a| == |b| > 0
    ensures var n := |a| - 1;
            LexLess(a, b) <==> LexLess(a[..n], b[..n]) || (a[..n] == b[..n] && a[n] < b[n])
    decreases |a|
  {
    var n := |a| - 1;
    if n > 0 {
      LexFromRight(a[1..], b[1..]);
      assert a[1..][..n - 1] == a[..n][1..] && b[1..][..n - 1] == b[..n][1..];
      assert a[..n] == [a[0]] + a[..n][1..] && b[..n] == [b[0]] + b[..n][1..];
    } else {
      assert a[1..] == [] && b[1..] == [] && a[..n] == [] && b[..n] == [];
    }
  }

  lemma {:induction false} DigitsInOrder(a: string, b: string)
    requires |a| == |b| && AllDigits(a) && AllDigits(b)
    ensures LexLess(a, b) <==> Value(a) < Value(b)
    ensures a == b <==> Value(a) == Value(b)
    decreases |a|
  {
    if |a| > 0 {
      var n := |a| - 1;
      LexFromRight(a, b);
      DigitsInOrder(a[..n], b[..n]);
      assert a == a[..n] + [a[n]] && b == b[..n] + [b[n]];
    }
  }

  function Pow10(k: nat): nat { if k == 0 then 1 else 10 * Pow10(k - 1) }

  lemma {:induction false} DecimalWidth(n: nat, k: nat)
    requires k > 0 && n < Pow10(k)
    ensures |Decimal(n)| <= k
  {
    if n >= 10 {
      assert k > 1;
      DecimalWidth(n / 10, k - 1);
    }
  }

  /** Below 10^12 the byte order of ids is the order of the numbers. */
  lemma {:induction false} PaddedOrder(m: nat, n: nat)
    requires m < 1_000_000_000_000 && n < 1_000_000_000_000
    ensures LexLess(Padded(m), Padded(n)) <==> m < n
  {
    assert Pow10(12) == 1_000_000_000_000;
    DecimalWidth(m, 12);
    DecimalWidth(n, 12);
    PaddedValue(m);
    PaddedValue(n);
    DigitsInOrder(Padded(m), Padded(n));
  }

  /** The ids of 0..count-1 sort in numeric order if and only if none of them is wider than the padding. */
  lemma {:induction false} PaddedOrderBound(count: nat)
    ensures (forall m: nat, n: nat :: m < count && n < count ==> (LexLess(Padded(m), Padded(n)) <==> m < n))
            <==> count <= 1_000_000_000_000
  {
    if count <= 1_000_000_000_000 {
      forall m: nat, n: nat | m < count && n < count ensures LexLess(Padded(m), Padded(n)) <==> m < n { PaddedOrder(m, n); }
    } else {
      WiderIdSortsFirst();
    }
  }

  lemma {:induction false} WiderIdSortsFirst()
    ensures LexLess(Padded(1_000_000_000_000), Padded(999_999_999_999))
  {
    assert Scaled(1, 12) == 1_000_000_000_000 && Scaled(2, 12) == 2_000_000_000_000;
    FirstDigit(1_000_000_000_000, 1, 12);
    FirstDigit(999_999_999_999, 9, 11);
  }

  /** `d` followed by `k` zeros. */
  function Scaled(d: nat, k: nat): nat { if k == 0 then d else 10 * Scaled(d, k - 1) }

  lemma {:induction false} FirstDigit(n: nat, d: nat, k: nat)
    requires 0 < d < 10 && Scaled(d, k) <= n < Scaled(d + 1, k)
    ensures |Decimal(n)| == k + 1 && Decimal(n)[0] == DecimalDigit(d)
  {
    if k > 0 {
      FirstDigit(n / 10, d, k - 1);
      ScaledPositive(d, k - 1);
    }
  }

  lemma {:induction false} ScaledPositive(d: nat, k: nat)
    requires d > 0
    ensures Scaled(d, k) > 0
  {
    if k > 0 { ScaledPositive(d, k - 1); }
  }
}
