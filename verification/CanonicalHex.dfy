/** One number, one spelling: what normalising promises. */
module CanonicalHex {
  import opened Basics
  import opened ByteCodec
  import opened Text
  import opened FieldHex

  // ----- numerals --------------------------------------------------------------------

  lemma {:induction false} HexDigitsRead(b: Bytes)
    ensures AllHex(HexDigits(b)) && HexNumber(HexDigits(b)) == FromBigEndian(b)
    ensures forall i :: 0 <= i < |HexDigits(b)| ==> IsLowerHex(HexDigits(b)[i])
  {
    if b != [] {
      var init, last, s := b[..|b| - 1], b[|b| - 1] as nat, HexDigits(b);
      HexDigitsRead(init);
      assert s == HexDigits(init) + [HexDigit(last / 16), HexDigit(last % 16)];
      var s' := s[..|s| - 1];
      assert s' == HexDigits(init) + [HexDigit(last / 16)];
      assert s'[..|s'| - 1] == HexDigits(init);
    }
  }

  predicate IsLowerHex(c: char) { '0' <= c <= '9' || 'a' <= c <= 'f' }

  ghost predicate AllWhite(s: string) { forall i :: 0 <= i < |s| ==> IsWhite(s[i]) }

  /** Text that starts and ends with something other than white space. */
  ghost predicate Tight(s: string) { s != [] && !IsWhite(s[0]) && !IsWhite(s[|s| - 1]) }

  lemma {:induction false} StartTrimmed(pre: string, s: string)
    requires AllWhite(pre) && s != [] && !IsWhite(s[0])
    ensures TrimStart(pre + s) == s
  {
    if pre == [] {
      assert pre + s == s;
    } else {
      assert (pre + s)[0] == pre[0] && (pre + s)[1..] == pre[1..] + s;
      StartTrimmed(pre[1..], s);
    }
  }

  lemma {:induction false} EndTrimmed(s: string, post: string)
    requires AllWhite(post) && s != [] && !IsWhite(s[|s| - 1])
    ensures TrimEnd(s + post) == s
  {
    if post == [] {
      assert s + post == s;
    } else {
      var n := |post| - 1;
      assert (s + post)[|s| + n] == post[n] && (s + post)[..|s| + n] == s + post[..n];
      EndTrimmed(s, post[..n]);
    }
  }

  lemma Trimmed(pre: string, s: string, post: string)
    requires AllWhite(pre) && AllWhite(post) && Tight(s)
    ensures Trim(pre + s + post) == s
  {
    assert pre + s + post == pre + (s + post);
    StartTrimmed(pre, s + post);
    EndTrimmed(s, post);
  }

  lemma AlreadyTrimmed(s: string)
    requires Tight(s)
    ensures Trim(s) == s
  {
    Trimmed("", s, "");
    assert "" + s + "" == s;
  }

  // ----- repeated affixes --------------------------------------------------------------

  function Times(t: string, n: nat): string { if n == 0 then "" else t + Times(t, n - 1) }

  lemma {:induction false} PrefixesStripped(t: string, n: nat, rest: string)
    requires t != ""
    ensures StripPrefixes(Times(t, n) + rest, t) == StripPrefixes(rest, t)
  {
    if n == 0 {
      assert Times(t, 0) + rest == rest;
    } else {
      assert Times(t, n) + rest == t + (Times(t, n - 1) + rest);
      assert (t + (Times(t, n - 1) + rest))[|t|..] == Times(t, n - 1) + rest;
      PrefixesStripped(t, n - 1, rest);
    }
  }

  lemma OneSuffix(s: string, below: string, all: string)
    requires all == below + ")"
    ensures StripSuffixes(s + all, ')') == StripSuffixes(s + below, ')')
  {
    assert (s + all)[..|s + all| - 1] == s + below;
  }

  lemma {:induction false} SuffixesStripped(s: string, n: nat)
    ensures StripSuffixes(s + Times(")", n), ')') == StripSuffixes(s, ')')
  {
    if n == 0 {
      assert s + Times(")", 0) == s;
    } else {
      TimesTurned(")", n - 1);
      SuffixesStripped(s, n - 1);
      OneSuffix(s, Times(")", n - 1), Times(")", n));
    }
  }

  lemma {:induction false} TimesTurned(t: string, n: nat)
    ensures Times(t, n + 1) == Times(t, n) + t
  {
    if n == 0 {
      assert t + "" == t == "" + t;
    } else {
      TimesTurned(t, n - 1);
      assert Times(t, n + 1) == t + (Times(t, n - 1) + t) == t + Times(t, n - 1) + t;
    }
  }

  // ----- spellings --------------------------------------------------------------------

  /** A numeral as it may be written: white space around, any number of the wallet's `Fr(` before and of `)` behind, white
      space again, then any number of 0x and after them of 0X. */
  datatype Spelling = Spelling(pre: string, opens: nat, inner: string, lower: nat, upper: nat, digits: string,
                               outer: string, closes: nat, post: string)

  ghost predicate IsSpelling(p: Spelling) {
    && AllWhite(p.pre) && AllWhite(p.inner) && AllWhite(p.outer) && AllWhite(p.post)
    && AllHex(p.digits) && p.digits != []
  }

  function Numeral(lower: nat, upper: nat, digits: string): string {
    Times("0x", lower) + (Times("0X", upper) + digits)
  }

  function Written(p: Spelling): string {
    p.pre + (Times("Fr(", p.opens) + (p.inner + Numeral(p.lower, p.upper, p.digits) + p.outer) + Times(")", p.closes)) + p.post
  }

  lemma {:induction false} NumeralEnds(lower: nat, upper: nat, digits: string)
    requires AllHex(digits) && digits != []
    ensures var n := Numeral(lower, upper, digits);
            n != [] && IsHexDigit(n[0]) && IsHexDigit(n[|n| - 1]) && (|n| > 1 ==> IsHexDigit(n[1]) || n[1] == 'x' || n[1] == 'X')
  {
    var n := Numeral(lower, upper, digits);
    assert n[|n| - 1] == digits[|digits| - 1];
    if lower > 0 {
      assert n[..2] == "0x";
    } else if upper > 0 {
      assert n == Times("0X", upper) + digits && n[..2] == "0X";
    } else {
      assert n == digits;
    }
  }

  lemma {:induction false} NumeralCleans(lower: nat, upper: nat, digits: string)
    requires AllHex(digits) && digits != []
    ensures Clean(Numeral(lower, upper, digits)) == digits
  {
    hide Trim, Times;
    NumeralEnds(lower, upper, digits);
    AlreadyTrimmed(Numeral(lower, upper, digits));
    PrefixesStripped("0x", lower, Times("0X", upper) + digits);
    NoLowerPrefix(upper, digits);
    PrefixesStripped("0X", upper, digits);
    if |digits| > 1 { assert IsHexDigit(digits[1]); }
  }

  lemma NoLowerPrefix(upper: nat, digits: string)
    requires AllHex(digits) && digits != []
    ensures !("0x" <= Times("0X", upper) + digits)
  {
    var s := Times("0X", upper) + digits;
    if upper > 0 {
      assert s[1] == 'X';
    } else {
      assert s == digits;
      if |digits| > 1 { assert IsHexDigit(digits[1]); }
    }
  }

  /** The first character after the white space and the last before it. */
  lemma BodyEnds(inner: string, n: string, outer: string)
    requires AllWhite(inner) && AllWhite(outer) && n != [] && IsHexDigit(n[0]) && IsHexDigit(n[|n| - 1])
    requires |n| > 1 ==> IsHexDigit(n[1]) || n[1] == 'x' || n[1] == 'X'
    ensures var body := inner + n + outer;
            && body != [] && (IsWhite(body[0]) || body[0] == n[0])
            && (IsWhite(body[|body| - 1]) || body[|body| - 1] == n[|n| - 1])
  {}

  /** White space inside the wrapper, or nothing where nothing is wrapped. */
  function Inside(wraps: nat, white: string): string { if wraps == 0 then "" else white }

  function Outside(wraps: nat, white: string): string { if wraps == 0 then white else "" }

  function Middle(p: Spelling): string {
    Times("Fr(", p.opens)
    + (Inside(p.opens, p.inner) + Numeral(p.lower, p.upper, p.digits) + Inside(p.closes, p.outer))
    + Times(")", p.closes)
  }

  lemma Regrouped(p: Spelling)
    ensures Written(p) == (p.pre + Outside(p.opens, p.inner)) + Middle(p) + (Outside(p.closes, p.outer) + p.post)
  {
    var n := Numeral(p.lower, p.upper, p.digits);
    GroupedLeft(p.pre, p.opens, p.inner, n + p.outer + Times(")", p.closes) + p.post);
    GroupedRight(Times("Fr(", p.opens) + (Inside(p.opens, p.inner) + n), p.outer, p.closes, p.post);
    Reassociated(p, n);
  }

  lemma GroupedLeft(pre: string, opens: nat, inner: string, rest: string)
    ensures pre + Times("Fr(", opens) + inner + rest ==
              (pre + Outside(opens, inner)) + Times("Fr(", opens) + Inside(opens, inner) + rest
  {}

  lemma GroupedRight(rest: string, outer: string, closes: nat, post: string)
    ensures rest + outer + Times(")", closes) + post ==
              rest + Inside(closes, outer) + Times(")", closes) + (Outside(closes, outer) + post)
  {}

  lemma Reassociated(p: Spelling, n: string)
    requires n == Numeral(p.lower, p.upper, p.digits)
    requires p.pre + Times("Fr(", p.opens) + p.inner + (n + p.outer + Times(")", p.closes) + p.post) ==
               (p.pre + Outside(p.opens, p.inner)) + Times("Fr(", p.opens) + Inside(p.opens, p.inner)
               + (n + p.outer + Times(")", p.closes) + p.post)
    requires Times("Fr(", p.opens) + (Inside(p.opens, p.inner) + n) + p.outer + Times(")", p.closes) + p.post ==
               Times("Fr(", p.opens) + (Inside(p.opens, p.inner) + n) + Inside(p.closes, p.outer) + Times(")", p.closes)
               + (Outside(p.closes, p.outer) + p.post)
    ensures Written(p) == (p.pre + Outside(p.opens, p.inner)) + Middle(p) + (Outside(p.closes, p.outer) + p.post)
  {
    hide Times, Inside, Outside, Numeral;
    var o, c, i, e := Times("Fr(", p.opens), Times(")", p.closes), Inside(p.opens, p.inner), Inside(p.closes, p.outer);
    var l, r := p.pre + Outside(p.opens, p.inner), Outside(p.closes, p.outer) + p.post;
    Flattened(p.pre, o, p.inner, n, p.outer, c, p.post);
    Flattened(l, o, i, n, p.outer, c, p.post);
    Flattened(l, o, i, n, e, c, r);
  }

  /** Concatenation does not depend on where it is bracketed. */
  lemma Flattened(a: string, b: string, c: string, d: string, e: string, f: string, g: string)
    ensures a + (b + (c + d + e) + f) + g == a + b + c + (d + e + f + g)
    ensures a + (b + (c + d) + e + f + g) == a + b + c + (d + e + f + g)
  {
    assert (b + (c + d + e) + f) + g == b + c + (d + e + f + g);
    assert b + (c + d) + e + f + g == b + c + (d + e + f + g);
  }

  /** Trimming the whole spelling takes the outer white space off, and the inner where nothing is wrapped around it. */
  lemma {:induction false} OuterTrimmed(p: Spelling)
    requires IsSpelling(p)
    ensures Trim(Written(p)) == Middle(p)
  {
    var n := Numeral(p.lower, p.upper, p.digits);
    NumeralEnds(p.lower, p.upper, p.digits);
    MiddleIsTight(p, n, Inside(p.opens, p.inner) + n + Inside(p.closes, p.outer));
    Regrouped(p);
    Trimmed(p.pre + Outside(p.opens, p.inner), Middle(p), Outside(p.closes, p.outer) + p.post);
  }

  lemma {:induction false} MiddleIsTight(p: Spelling, n: string, body: string)
    requires n != [] && IsHexDigit(n[0]) && IsHexDigit(n[|n| - 1])
    requires body == Inside(p.opens, p.inner) + n + Inside(p.closes, p.outer)
    ensures Tight(Times("Fr(", p.opens) + body + Times(")", p.closes))
  {
    var middle := Times("Fr(", p.opens) + body + Times(")", p.closes);
    if p.opens > 0 { assert middle[0] == 'F'; } else { assert middle[0] == body[0] == n[0]; }
    if p.closes > 0 {
      TimesTurned(")", p.closes - 1);
      assert middle[|middle| - 1] == ')';
    } else {
      assert middle[|middle| - 1] == body[|body| - 1] == n[|n| - 1];
    }
  }

  lemma NoWrapperLeft(inner: string, n: string, tail: string)
    requires AllWhite(inner) && n != [] && IsHexDigit(n[0])
    requires |n| > 1 ==> IsHexDigit(n[1]) || n[1] == 'x' || n[1] == 'X'
    requires tail != [] ==> IsWhite(tail[0]) || tail[0] == ')'
    ensures !("Fr(" <= inner + n + tail)
  {
    var s := inner + n + tail;
    if inner != [] {
      assert s[0] == inner[0];
    } else if |n| > 1 {
      assert s[1] == n[1];
    } else if tail != [] {
      assert s[1] == tail[0];
    }
  }

  lemma {:induction false} OpensStripped(opens: nat, inner: string, n: string, outer: string, closes: nat)
    requires AllWhite(inner) && AllWhite(outer) && n != [] && IsHexDigit(n[0])
    requires |n| > 1 ==> IsHexDigit(n[1]) || n[1] == 'x' || n[1] == 'X'
    ensures StripPrefixes(Times("Fr(", opens) + (inner + n + outer) + Times(")", closes), "Fr(")
            == (inner + n + outer) + Times(")", closes)
  {
    var body, tail := inner + n + outer, Times(")", closes);
    assert Times("Fr(", opens) + body + tail == Times("Fr(", opens) + (body + tail);
    PrefixesStripped("Fr(", opens, body + tail);
    assert outer + tail != [] ==> IsWhite((outer + tail)[0]) || (outer + tail)[0] == ')';
    NoWrapperLeft(inner, n, outer + tail);
    assert inner + n + (outer + tail) == body + tail;
  }

  lemma {:induction false} ClosesStripped(inner: string, n: string, outer: string, closes: nat)
    requires AllWhite(inner) && AllWhite(outer) && n != [] && IsHexDigit(n[0]) && IsHexDigit(n[|n| - 1])
    requires |n| > 1 ==> IsHexDigit(n[1]) || n[1] == 'x' || n[1] == 'X'
    ensures StripSuffixes((inner + n + outer) + Times(")", closes), ')') == inner + n + outer
  {
    SuffixesStripped(inner + n + outer, closes);
    BodyEnds(inner, n, outer);
  }

  /** The wallet's wrapper comes off, whatever its number of opening and closing parts. */
  lemma {:induction false} Unwraps(p: Spelling)
    requires IsSpelling(p)
    ensures Unwrapped(Written(p)) == Numeral(p.lower, p.upper, p.digits)
  {
    var n, inner, outer := Numeral(p.lower, p.upper, p.digits), Inside(p.opens, p.inner), Inside(p.closes, p.outer);
    OuterTrimmed(p);
    NumeralEnds(p.lower, p.upper, p.digits);
    OpensStripped(p.opens, inner, n, outer, p.closes);
    ClosesStripped(inner, n, outer, p.closes);
    Trimmed(inner, n, outer);
  }

  /** Every spelling of a numeral is accepted exactly if the number is below the field order, and then becomes the
      canonical spelling of that number. */
  lemma {:induction false} SpellingsNormalise(p: Spelling)
    requires IsSpelling(p)
    ensures NormalizeBytes32Hex(Written(p)) ==
              if HexNumber(p.digits) < ORDER then Ok(FrToHex(HexNumber(p.digits))) else Err(NotInField)
  {
    Unwraps(p);
    NumeralCleans(p.lower, p.upper, p.digits);
  }

  // ----- nothing else is accepted -------------------------------------------------------------

  lemma {:induction false} StartCut(s: string) returns (pre: string)
    ensures AllWhite(pre) && s == pre + TrimStart(s)
  {
    if s != [] && IsWhite(s[0]) {
      var rest := StartCut(s[1..]);
      pre := [s[0]] + rest;
    } else {
      pre := "";
    }
  }

  lemma {:induction false} EndCut(s: string) returns (post: string)
    ensures AllWhite(post) && s == TrimEnd(s) + post
  {
    if s != [] && IsWhite(s[|s| - 1]) {
      var rest := EndCut(s[..|s| - 1]);
      post := rest + [s[|s| - 1]];
    } else {
      post := "";
    }
  }

  lemma Cut(s: string) returns (pre: string, post: string)
    ensures AllWhite(pre) && AllWhite(post) && s == pre + Trim(s) + post
  {
    pre := StartCut(s);
    post := EndCut(TrimStart(s));
  }

  lemma CutOne(s: string, t: string, m: nat, rest: string)
    requires t != "" && t <= s && s[|t|..] == Times(t, m) + rest && rest == StripPrefixes(s[|t|..], t)
    ensures s == Times(t, m + 1) + StripPrefixes(s, t)
  {
    assert StripPrefixes(s, t) == rest && Times(t, m + 1) == t + Times(t, m);
    Joined(s, t, Times(t, m), rest);
  }

  lemma Joined(s: string, t: string, a: string, b: string)
    requires t <= s && s[|t|..] == a + b
    ensures s == (t + a) + b
  {}

  lemma {:induction false} PrefixesCut(s: string, t: string) returns (n: nat)
    requires t != ""
    ensures s == Times(t, n) + StripPrefixes(s, t)
    decreases |s|
  {
    if t <= s {
      hide StripPrefixes, Times;
      var m := PrefixesCut(s[|t|..], t);
      n := m + 1;
      CutOne(s, t, m, StripPrefixes(s[|t|..], t));
    } else {
      n := 0;
      assert s == "" + s;
    }
  }

  lemma {:induction false} SuffixesCut(s: string) returns (n: nat)
    ensures s == StripSuffixes(s, ')') + Times(")", n)
  {
    if s != [] && s[|s| - 1] == ')' {
      var m := SuffixesCut(s[..|s| - 1]);
      n := m + 1;
      TimesTurned(")", m);
      assert s == s[..|s| - 1] + ")";
    } else {
      n := 0;
      assert s == s + "";
    }
  }

  /** Whatever is accepted is such a spelling, of a number below the field order. */
  lemma {:induction false} OnlySpellingsNormalise(s: string) returns (p: Spelling)
    requires NormalizeBytes32Hex(s).Ok?
    ensures IsSpelling(p) && s == Written(p) && HexNumber(p.digits) < ORDER
  {
    hide Trim, TrimStart, TrimEnd, StripPrefixes, StripSuffixes, Times, HexNumber, FrToHex;
    var pre, post := Cut(s);
    var opens := PrefixesCut(Trim(s), "Fr(");
    var afterOpens := StripPrefixes(Trim(s), "Fr(");
    var closes := SuffixesCut(afterOpens);
    var closed := StripSuffixes(afterOpens, ')');
    var inner, outer := Cut(closed);
    var inner', outer' := Cut(Trim(closed));
    var bare := Trim(Trim(closed));
    var lower := PrefixesCut(bare, "0x");
    var upper := PrefixesCut(StripPrefixes(bare, "0x"), "0X");
    var digits := StripPrefixes(StripPrefixes(bare, "0x"), "0X");
    p := Spelling(pre, opens, inner + inner', lower, upper, digits, outer' + outer, closes, post);
    assert bare == Numeral(lower, upper, digits);
    assert closed == (inner + inner') + bare + (outer' + outer);
    assert Trim(s) == Times("Fr(", opens) + closed + Times(")", closes);
  }

  // ----- the canonical form ----------------------------------------------------------------

  lemma OrderFits()
    ensures ORDER < Pow256(32)
  {
    assert Pow256(8) == 0x1_0000_0000_0000_0000;
    assert Pow256(16) == 0x1_0000_0000_0000_0000_0000_0000_0000_0000;
    assert Pow256(24) == 0x1_0000_0000_0000_0000_0000_0000_0000_0000_0000_0000_0000_0000;
    assert Pow256(32) == 0x1_0000_0000_0000_0000_0000_0000_0000_0000_0000_0000_0000_0000_0000_0000_0000_0000;
  }

  /** Reading 32 bytes of hexadecimal: the big-endian number, if it is in the field. */
  lemma {:induction false} WordReads(d: Digest)
    ensures FrFromHex(ToHex(d)) == if FromBigEndian(d) < ORDER then Ok(FromBigEndian(d)) else Err(NotInField)
    ensures NormalizeBytes32Hex(ToHex(d)) == if FromBigEndian(d) < ORDER then Ok(ToHex(d)) else Err(NotInField)
  {
    hide Clean, Unwrapped, HexDigits, HexNumber, Written, Numeral;
    var digits := HexDigits(d);
    HexDigitsRead(d);
    PlainSpelling(digits);
    NumeralCleans(1, 0, digits);
    SpellingsNormalise(Plain(digits));
    EncodeDecodeInt(d);
  }

  /** One 0x in front and nothing else. */
  function Plain(digits: string): Spelling { Spelling("", 0, "", 1, 0, digits, "", 0, "") }

  lemma PlainSpelling(digits: string)
    ensures Written(Plain(digits)) == Numeral(1, 0, digits) == "0x" + digits
  {
    assert Times("0x", 1) == "0x" && Times("0X", 0) == "" && Times("Fr(", 0) == "" && Times(")", 0) == "";
  }

  lemma {:induction false} HexReadsBack(f: Fr)
    ensures FrFromHex(FrToHex(f)) == Ok(f)
  {
    OrderFits();
    DecodeEncodeInt(32, f);
    WordReads(BigEndian(32, f));
  }

  /** 0x and 64 lower-case digits, and normalising once is enough. */
  lemma {:induction false} NormalForm(s: string, t: string)
    requires NormalizeBytes32Hex(s) == Ok(t)
    ensures |t| == 66 && t[..2] == "0x" && forall i :: 2 <= i < 66 ==> IsLowerHex(t[i])
    ensures NormalizeBytes32Hex(t) == Ok(t)
  {
    var f := FrFromHex(Unwrapped(s)).value;
    var word := BigEndian(32, f);
    HexDigitsRead(word);
    OrderFits();
    DecodeEncodeInt(32, f);
    WordReads(word);
    forall i | 2 <= i < 66 ensures IsLowerHex(t[i]) { assert t[i] == HexDigits(word)[i - 2]; }
  }

  /** The number an accepted spelling denotes. */
  function NumberOf(s: string): (r: nat)
    requires NormalizeBytes32Hex(s).Ok?
  {
    HexNumber(Clean(Unwrapped(s)))
  }

  /** Two accepted spellings have the same canonical form if and only if they denote the same number. */
  lemma {:induction false} SameFormSameNumber(s: string, t: string)
    requires NormalizeBytes32Hex(s).Ok? && NormalizeBytes32Hex(t).Ok?
    ensures NormalizeBytes32Hex(s) == NormalizeBytes32Hex(t) <==> NumberOf(s) == NumberOf(t)
  {
    if NormalizeBytes32Hex(s) == NormalizeBytes32Hex(t) {
      var f: Fr, g: Fr := NumberOf(s), NumberOf(t);
      assert FrToHex(f) == FrToHex(g);
      HexReadsBack(f);
      HexReadsBack(g);
    }
  }
}
