/** The fixed-precision number format: one byte below 32, otherwise a mantissa
    and a power of ten in 2 to 7 bytes (src/BitIO.cpp:1071-1157). */
module FixedPrecision {
  import opened BitStream
  import opened Fields
  import opened Numbers
  import opened Packing
  import opened Results
  import opened Words

  const UNENCODABLE := 10000000000000000 // 10^16

  function Pow10(e: nat): (p: nat)
    ensures p > 0 && (e > 0 ==> p >= 10)
  {
    if e == 0 then 1 else 10 * Pow10(e - 1)
  }

  /** v without its trailing zeros, and how many there were. */
  function Strip(v: nat): (r: (nat, nat))
    requires v > 0
    ensures r.0 * Pow10(r.1) == v && r.0 % 10 != 0
  {
    if v % 10 == 0 then var (m, e) := Strip(v / 10); (m, e + 1) else (v, 0)
  }

  /** The mantissa and exponent written for v. */
  function Split(v: nat): (nat, nat)
    requires v > 0
  {
    var (m, e) := Strip(v);
    if m > 4398046511103 then (v, 0)
    else if e > 7 && m > 33554431 then (m * Pow10(e - 7), 7)
    else (m, e)
  }

  /** The bits of v: a length prefix, the mantissa, the exponent. */
  function Encode(v: nat): Result<seq<bool>> {
    if v > MAX_COUNT then Err
    else if v < 32 then Ok(Bits(v, 8))
    else
      var (m, e) := Split(v);
      Sized(m, e)
  }

  /** The smallest of the six layouts that holds the mantissa. */
  function Sized(m: nat, e: nat): Result<seq<bool>> {
    if m > 4398046511103 then Ok(Bits(3, 2) + Bits(m, 54))
    else if m > 17179869183 then Fielded(5, m, 42, e, 3)
    else if m > 33554431 then Fielded(4, m, 34, e, 3)
    else if m > 131071 then Fielded(3, m, 25, e, 4)
    else if m > 511 then Fielded(2, m, 17, e, 4)
    else Fielded(1, m, 9, e, 4)
  }

  function Fielded(prefix: nat, m: nat, mBits: nat, e: nat, eBits: nat): Result<seq<bool>> {
    if e < Pow2(eBits) then Ok(Bits(prefix, 3) + Bits(m, mBits) + Bits(e, eBits)) else Err
  }

  /** The 64-bit product, which wraps when a mantissa and exponent off the wire are too large. */
  function Product(m: nat, e: nat): (r: Long)
    ensures m <= 0xffff_ffff_ffff_ffff && e == 0 ==> r == m
  {
    (m * Pow10(e)) % 0x1_0000_0000_0000_0000
  }

  /** The number at p and the place after it. */
  function Decode(s: seq<bool>, p: nat): Result<(nat, nat)> {
    var prefix :- Read(s, p, 3);
    if prefix == 0 then
      var m :- Read(s, p + 3, 5);
      Ok((m, p + 8))
    else if prefix < 4 then
      var m :- Read(s, p + 3, 8 * prefix + 1);
      var e :- Read(s, p + 8 * prefix + 4, 4);
      Ok((Product(m, e), p + 8 * prefix + 8))
    else if prefix < 6 then
      var m :- Read(s, p + 3, 8 * prefix + 2);
      var e :- Read(s, p + 8 * prefix + 5, 3);
      Ok((Product(m, e), p + 8 * prefix + 8))
    else
      var m :- Read(s, p + 2, 54);
      Ok((m, p + 56))
  }

  lemma TenTimes(x: nat, y: nat)
    ensures (10 * x) * y == 10 * (x * y)
  {
  }

  lemma {:induction false} Pow10Add(a: nat, b: nat)
    ensures Pow10(a + b) == Pow10(a) * Pow10(b)
  {
    if a > 0 {
      Pow10Add(a - 1, b);
      assert Pow10(a) == 10 * Pow10(a - 1) && Pow10(a + b) == 10 * Pow10(a - 1 + b);
      hide Pow10;
      TenTimes(Pow10(a - 1), Pow10(b));
    }
  }

  lemma {:induction false} Pow10Values()
    ensures Pow10(7) == 10000000 && Pow10(16) == UNENCODABLE
  {
    assert Pow10(4) == 10000;
    Pow10Add(4, 4);
    Pow10Add(8, 8);
    assert Pow10(3) == 1000;
    Pow10Add(4, 3);
  }

  /** A power of ten this large in v leaves room for no other factor. */
  lemma {:induction false} SixteenZeros(m: nat, e: nat)
    requires e >= 16 && 1 <= m && m * Pow10(e) <= MAX_COUNT
    ensures m == 1 && e == 16
  {
    Pow10Values();
    Pow10Add(e - 16, 16);
    hide Pow10;
    Regrouped(m, Pow10(e - 16), Pow10(16));
  }

  /** What is written always multiplies out to v, and its exponent fits its field
      except for one number. */
  lemma {:induction false} SplitFits(v: nat)
    requires 32 <= v <= MAX_COUNT
    ensures Split(v).0 * Pow10(Split(v).1) == v && Split(v).0 > 0
    ensures Split(v).0 > 4398046511103 ==> Split(v) == (v, 0)
    ensures Split(v).0 > 33554431 ==> Split(v).1 <= 7
    ensures Split(v).1 <= 16 && (Split(v).1 == 16 <==> v == UNENCODABLE)
  {
    var (m, e) := Strip(v);
    Pow10Values();
    StripPower(16);
    hide Pow10, Strip;
    if e >= 16 {
      SixteenZeros(m, e);
    } else if m <= 4398046511103 && e > 7 && m > 33554431 {
      Pow10Add(e - 7, 7);
      Regrouped(m, Pow10(e - 7), Pow10(7));
    }
  }

  lemma Regrouped(m: nat, a: nat, b: nat)
    ensures (m * a) * b == m * (a * b)
    ensures a > 0 ==> m * a >= m
    ensures m > 0 ==> m * a >= a
  {
  }

  lemma {:induction false} StripPower(n: nat)
    ensures Strip(Pow10(n)) == (1, n)
  {
    if n > 0 {
      StripPower(n - 1);
    }
  }

  lemma {:induction false} FieldLimits()
    ensures Pow2(3) == 8 && Pow2(4) == 16 && Pow2(5) == 32 && Pow2(8) == 256 && Pow2(9) == 512
    ensures Pow2(17) == 131072 && Pow2(25) == 33554432 && Pow2(34) == 17179869184
    ensures Pow2(42) == 4398046511104 && Pow2(54) == 18014398509481984
  {
    assert Pow2(8) == 256;
    Pow2Add(8, 8);
    Pow2Add(16, 1);
    Pow2Add(17, 8);
    Pow2Add(25, 9);
    Pow2Add(34, 8);
    Pow2Add(42, 8);
    Pow2Add(50, 4);
  }

  // No encoding is longer than it has to be.

  /** A mantissa and an exponent fit the fields of a record of k bytes. */
  predicate FitsIn(k: nat, m: nat, e: nat) {
    || (k == 1 && m < 0x20 && e == 0)
    || (k == 2 && m < 0x200 && e < 16)
    || (k == 3 && m < 0x2_0000 && e < 16)
    || (k == 4 && m < 0x200_0000 && e < 16)
    || (k == 5 && m < 0x4_0000_0000 && e < 8)
    || (k == 6 && m < 0x400_0000_0000 && e < 8)
    || (k == 7 && m < 0x40_0000_0000_0000 && e == 0)
  }

  /** No product of a number and a power of ten has a higher power than the zeros show. */
  lemma {:induction false} StripMost(v: nat, m: nat, e: nat)
    requires v > 0 && m * Pow10(e) == v
    ensures e <= Strip(v).1 && m == Strip(v).0 * Pow10(Strip(v).1 - e)
    decreases e
  {
    if e > 0 {
      assert Pow10(e) == 10 * Pow10(e - 1);
      TenthOf(v, m, Pow10(e - 1));
      StripMost(v / 10, m, e - 1);
    } else {
      assert Pow10(0) == 1;
    }
  }

  lemma TenthOf(v: nat, m: nat, p: nat)
    requires v == m * (10 * p)
    ensures v % 10 == 0 && v / 10 == m * p
  {
    assert v == 10 * (m * p);
  }

  /** Of all ways to write v as a mantissa times a power of ten the one chosen asks for the
      fewest bytes. */
  lemma {:induction false} SplitShortest(v: nat, m: nat, e: nat, k: nat)
    requires 32 <= v <= MAX_COUNT && m * Pow10(e) == v && FitsIn(k, m, e) && Split(v).1 < 16
    ensures exists j :: 2 <= j <= k && FitsIn(j, Split(v).0, Split(v).1)
  {
    var (m0, e0) := Strip(v);
    StripMost(v, m, e);
    SplitFits(v);
    assert Pow10(0) == 1;
    hide Strip;
    var (sm, se) := Split(v);
    Regrouped(m0, Pow10(e0 - e), 1);
    if k == 1 {
      hide Pow10;
      assert false;
    } else if k < 7 && e0 > 7 && m0 > 33554431 {
      Pow10Add(e0 - 7, 7 - e);
      hide Pow10;
      Regrouped(m0, Pow10(e0 - 7), Pow10(7 - e));
      Regrouped(m0 * Pow10(e0 - 7), Pow10(7 - e), 1);
      assert FitsIn(k, sm, se);
    } else if k < 7 {
      hide Pow10;
      assert m0 <= m && (sm, se) == (m0, e0);
      assert FitsIn(if m0 <= 33554431 && k > 4 then 4 else k, sm, se);
    } else {
      hide Pow10;
      assert FitsIn(if sm > 4398046511103 then 7 else if sm > 33554431 then 6 else 4, sm, se);
    }
  }

  /** How many bytes are written for a mantissa and an exponent, the fewest they fit in. */
  lemma {:induction false} SizedLength(m: nat, e: nat, j: nat)
    requires 2 <= j && FitsIn(j, m, e) && (m > 4398046511103 ==> e == 0)
    ensures Sized(m, e).Ok? && |Sized(m, e).value| <= 8 * j
  {
    FieldLimits();
    hide Bits, Pow2;
  }

  /** The encoding is the shortest there is: no record that could say v in other fields takes
      fewer bytes; and a single byte is written exactly below 32. */
  lemma {:induction false} Shortest(v: nat, m: nat, e: nat, k: nat)
    requires Encode(v).Ok? && m * Pow10(e) == v && FitsIn(k, m, e)
    ensures |Encode(v).value| <= 8 * k
    ensures |Encode(v).value| == 8 <==> v < 32
  {
    hide Bits, Pow2, Pow10, Strip, Split, FitsIn, Sized;
    EncodeDomain(v);
    if v < 32 {
      FewestIsOne(k, m, e);
    } else {
      SplitFits(v);
      SplitShortest(v, m, e, k);
      var j :| 2 <= j <= k && FitsIn(j, Split(v).0, Split(v).1);
      SizedLength(Split(v).0, Split(v).1, j);
      SizedSeveral(Split(v).0, Split(v).1);
    }
  }

  lemma FewestIsOne(k: nat, m: nat, e: nat)
    requires FitsIn(k, m, e)
    ensures k >= 1
  {
  }

  lemma SizedSeveral(m: nat, e: nat)
    ensures Sized(m, e).Ok? ==> |Sized(m, e).value| >= 16
  {
    hide Bits, Pow2;
  }

  /** Every number up to the limit but one has an encoding, of 1 to 7 whole bytes. */
  lemma {:induction false} EncodeDomain(v: nat)
    ensures Encode(v).Ok? <==> v <= MAX_COUNT && v != UNENCODABLE
    ensures Encode(v).Ok? ==> |Encode(v).value| in {8, 16, 24, 32, 40, 48, 56}
  {
    FieldLimits();
    hide Bits, Pow2, Pow10, Strip, Split;
    if 32 <= v <= MAX_COUNT {
      SplitFits(v);
    }
  }

  /** The decoder gives back the number written, whatever stands before and after
      it, and stops exactly at its end. */
  lemma {:induction false} RoundTrip(v: nat, s: seq<bool>, p: nat)
    requires Encode(v).Ok? && At(s, p, Encode(v).value)
    ensures Decode(s, p) == Ok((v, p + |Encode(v).value|))
  {
    hide Bits, Value, Pow2, Pow10, Split, At, Read;
    if v < 32 {
      OneByte(v, s, p);
    } else {
      SplitFits(v);
      var (m, e) := Split(v);
      hide Sized, Decode;
      SizedBack(v, m, e, s, p);
    }
  }

  lemma {:induction false} SizedBack(v: nat, m: nat, e: nat, s: seq<bool>, p: nat)
    requires Sized(m, e).Ok? && At(s, p, Sized(m, e).value) && Product(m, e) == v <= MAX_COUNT
    requires m > 4398046511103 ==> m == v
    ensures Decode(s, p) == Ok((v, p + |Sized(m, e).value|))
  {
    hide Bits, Value, Pow2, Pow10, At, Product, Decode, Fielded;
    FieldLimits();
    if m > 4398046511103 {
      SevenBack(m, s, p);
    } else if m > 17179869183 {
      SeveralBack(5, m, 42, e, 3, s, p);
    } else if m > 33554431 {
      SeveralBack(4, m, 34, e, 3, s, p);
    } else if m > 131071 {
      SeveralBack(3, m, 25, e, 4, s, p);
    } else if m > 511 {
      SeveralBack(2, m, 17, e, 4, s, p);
    } else {
      SeveralBack(1, m, 9, e, 4, s, p);
    }
  }

  lemma {:induction false} SevenBack(m: nat, s: seq<bool>, p: nat)
    requires m < Pow2(54) && At(s, p, Bits(3, 2) + Bits(m, 54))
    ensures Decode(s, p) == Ok((m, p + |Bits(3, 2) + Bits(m, 54)|))
  {
    hide Bits, Value, Pow2, At, Read;
    SevenBytes(m, s, p);
  }

  lemma {:induction false} SeveralBack(prefix: nat, m: nat, mBits: nat, e: nat, eBits: nat, s: seq<bool>, p: nat)
    requires 1 <= prefix < 6 && eBits == (if prefix < 4 then 4 else 3) && mBits == 8 * prefix + 5 - eBits
    requires m < Pow2(mBits) && Fielded(prefix, m, mBits, e, eBits).Ok?
    requires At(s, p, Fielded(prefix, m, mBits, e, eBits).value)
    ensures Decode(s, p) == Ok((Product(m, e), p + |Fielded(prefix, m, mBits, e, eBits).value|))
  {
    hide Bits, Value, Pow2, At, Read, Product;
    Several(prefix, m, mBits, e, eBits, s, p);
  }

  lemma {:induction false} Several(prefix: nat, m: nat, mBits: nat, e: nat, eBits: nat, s: seq<bool>, p: nat)
    requires prefix < 8 && m < Pow2(mBits) && e < Pow2(eBits)
    requires At(s, p, Fielded(prefix, m, mBits, e, eBits).value)
    ensures Read(s, p, 3) == Ok(prefix)
    ensures Read(s, p + 3, mBits) == Ok(m)
    ensures Read(s, p + 3 + mBits, eBits) == Ok(e)
  {
    hide Bits, Value, Pow2, Read;
    FieldLimits();
    AtParts(s, p, Bits(prefix, 3) + Bits(m, mBits), Bits(e, eBits));
    AtParts(s, p, Bits(prefix, 3), Bits(m, mBits));
    ReadField(s, p, prefix, 3);
    ReadField(s, p + 3, m, mBits);
    ReadField(s, p + 3 + mBits, e, eBits);
  }

  /** A lone byte is a clear 3-bit prefix and the number in 5 bits. */
  lemma {:induction false} OneByte(v: nat, s: seq<bool>, p: nat)
    requires v < 32 && At(s, p, Bits(v, 8))
    ensures Read(s, p, 3) == Ok(0) && Read(s, p + 3, 5) == Ok(v)
  {
    hide Bits, Pow2;
    FieldLimits();
    ReadField(s, p, v, 8);
    ReadJoined(s, p, 3, 5);
    assert Value(s[p + 3..p + 8]) < Pow2(5);
  }

  /** Two set bits in front, whatever the mantissa starts with, read as 6 or 7. */
  lemma {:induction false} SevenBytes(m: nat, s: seq<bool>, p: nat)
    requires m < Pow2(54) && At(s, p, Bits(3, 2) + Bits(m, 54))
    ensures Read(s, p, 3).Ok? && Read(s, p, 3).value >= 6
    ensures Read(s, p + 2, 54) == Ok(m)
  {
    hide Bits;
    AtParts(s, p, Bits(3, 2), Bits(m, 54));
    assert Pow2(2) == 4;
    ReadField(s, p, 3, 2);
    ReadField(s, p + 2, m, 54);
    ReadJoined(s, p, 2, 1);
  }

  /** Where an encoding of n bytes keeps its mantissa and its exponent of tens: behind the
      three bits of the prefix, the exponent last, in 4 bits or from five bytes on in 3. */
  predicate Keeps(b: seq<bool>, n: nat, m: nat, e: nat) {
    if n <= 1 then Read(b, 3, 5) == Ok(m) && e == 0
    else if n == 7 then Read(b, 2, 54) == Ok(m) && e == 0
    else
      var width := if n < 5 then 4 else 3;
      Read(b, 3, 8 * n - 3 - width) == Ok(m) && Read(b, 8 * n - width, width) == Ok(e)
  }

  /** The first three bits say how many bytes follow the first one, 6 and 7 alike that it is
      six; the number is what the fields behind them make. */
  lemma {:induction false} PrefixTells(v: nat)
    requires Encode(v).Ok?
    ensures var b := Encode(v).value;
            && |b| % 8 == 0 && Read(b, 0, 3).Ok?
            && (if |b| == 56 then Read(b, 0, 3).value >= 6 else Read(b, 0, 3).value == |b| / 8 - 1)
            && exists m, e :: m * Pow10(e) == v && Keeps(b, |b| / 8, m, e)
  {
    hide Bits, Value, Pow2, Pow10, Split, At, Read, Strip, Sized;
    EncodeDomain(v);
    var b := Encode(v).value;
    AtFront(b);
    if v < 32 {
      OneByte(v, b, 0);
      PlainProduct(v);
      assert Keeps(b, |b| / 8, v, 0);
    } else {
      SplitFits(v);
      var (m, e) := Split(v);
      SizedPrefix(m, e);
      PlainProduct(m);
      var tens := if |b| == 56 then 0 else e;
      assert m * Pow10(tens) == v && Keeps(b, |b| / 8, m, tens);
    }
  }

  lemma PlainProduct(m: nat)
    ensures m * Pow10(0) == m
  {
  }

  lemma AtFront(b: seq<bool>)
    ensures At(b, 0, b)
  {
  }

  lemma {:induction false} SizedPrefix(m: nat, e: nat)
    requires Sized(m, e).Ok? && m <= MAX_COUNT
    ensures var b := Sized(m, e).value;
            && |b| % 8 == 0 && Read(b, 0, 3).Ok?
            && (if |b| == 56 then Read(b, 0, 3).value >= 6 else Read(b, 0, 3).value == |b| / 8 - 1)
            && Keeps(b, |b| / 8, m, if |b| == 56 then 0 else e) && (|b| == 56 <==> m > 4398046511103)
  {
    hide Bits, Value, Pow2, At, Read;
    FieldLimits();
    var b := Sized(m, e).value;
    AtFront(b);
    if m > 4398046511103 {
      SevenBytes(m, b, 0);
    } else if m > 17179869183 {
      Several(5, m, 42, e, 3, b, 0);
    } else if m > 33554431 {
      Several(4, m, 34, e, 3, b, 0);
    } else if m > 131071 {
      Several(3, m, 25, e, 4, b, 0);
    } else if m > 511 {
      Several(2, m, 17, e, 4, b, 0);
    } else {
      Several(1, m, 9, e, 4, b, 0);
    }
  }

  /** Prefix, mantissa and exponent appended one after another. */
  method AppendFields(stream: BitIO, prefix: Long, m: Long, mBits: nat, e: Long, eBits: nat) returns (ok: bool)
    requires stream.Valid() && prefix < 8 && 1 <= mBits <= 64 && m < Pow2(mBits) && 1 <= eBits <= 64
    modifies stream`longs, stream`length, stream`contents
    ensures stream.Valid() && (ok <==> e < Pow2(eBits))
    ensures ok ==> stream.contents == old(stream.contents) + Fielded(prefix, m, mBits, e, eBits).value
  {
    FieldLimits();
    hide Bits, Pow2, Packed;
    ok := stream.AppendBits(prefix, 3);
    ok := stream.AppendBits(m, mBits);
    ok := stream.AppendBits(e, eBits);
    assert ok ==> stream.contents == old(stream.contents) + (Bits(prefix, 3) + Bits(m, mBits) + Bits(e, eBits));
  }

  // src/BitIO.cpp:1083-1095
  method Normalise(original: Long) returns (value: Long, exponent: nat)
    requires 32 <= original <= MAX_COUNT
    ensures (value, exponent) == Split(original)
  {
    value, exponent := original, 0;
    while value % 10 == 0
      invariant 0 < value <= original
      invariant Strip(original) == (Strip(value).0, Strip(value).1 + exponent)
      decreases value
    {
      exponent := exponent + 1;
      value := value / 10;
    }
    SplitFits(original);
    assert value * Pow10(exponent) == original;
    if value > 4398046511103 {
      value := value * Pow10(exponent);
      exponent := 0;
    }
    if exponent > 7 && value > 33554431 {
      value := value * Pow10(exponent - 7);
      exponent := 7;
    }
  }

  // src/BitIO.cpp:1071-1123
  method Make(original: Long) returns (r: Result<BitIO>)
    ensures r.Ok? <==> Encode(original).Ok?
    ensures r.Ok? ==> fresh(r.value) && r.value.Valid() && r.value.position == 0
    ensures r.Ok? ==> r.value.contents == Encode(original).value
  {
    var value := original;
    if value > MAX_COUNT {
      return Err;
    }
    FieldLimits();
    var result := new BitIO();
    hide Bits, Pow2, Pow10, Packed, Sized, Split, Strip, Value;
    if value < 32 {
      var ok := result.AppendBits(value, 8);
      return Ok(result);
    }

    var exponent;
    value, exponent := Normalise(original);
    SplitFits(original);
    var ok := AppendSized(result, value, exponent);
    return if ok then Ok(result) else Err;
  }

  method AppendSized(result: BitIO, value: Long, exponent: Long) returns (ok: bool)
    requires result.Valid() && result.contents == [] && value <= MAX_COUNT && (value > 4398046511103 ==> exponent == 0)
    modifies result`longs, result`length, result`contents
    ensures result.Valid() && (ok <==> Sized(value, exponent).Ok?)
    ensures ok ==> result.contents == Sized(value, exponent).value
  {
    FieldLimits();
    assert Pow2(2) == 4;
    hide Bits, Pow2, Packed, Fielded;
    FieldedOk(5, value, 42, exponent, 3);
    FieldedOk(4, value, 34, exponent, 3);
    FieldedOk(3, value, 25, exponent, 4);
    FieldedOk(2, value, 17, exponent, 4);
    FieldedOk(1, value, 9, exponent, 4);
    if value > 4398046511103 {
      ok := result.AppendBits(3, 2);
      assert [] + Bits(3, 2) == Bits(3, 2);
      ok := result.AppendBits(value, 54);
    } else if value > 17179869183 {
      ok := AppendFields(result, 5, value, 42, exponent, 3);
    } else if value > 33554431 {
      ok := AppendFields(result, 4, value, 34, exponent, 3);
    } else if value > 131071 {
      ok := AppendFields(result, 3, value, 25, exponent, 4);
    } else if value > 511 {
      ok := AppendFields(result, 2, value, 17, exponent, 4);
    } else {
      ok := AppendFields(result, 1, value, 9, exponent, 4);
    }
  }

  lemma {:induction false} FieldedOk(prefix: nat, m: nat, mBits: nat, e: nat, eBits: nat)
    ensures Fielded(prefix, m, mBits, e, eBits).Ok? <==> e < Pow2(eBits)
    ensures e < Pow2(eBits) ==>
              [] + Fielded(prefix, m, mBits, e, eBits).value == Fielded(prefix, m, mBits, e, eBits).value
  {
    hide Bits, Pow2;
  }

  // src/BitIO.cpp:1131-1157
  method Get(stream: BitIO) returns (r: Result<Long>)
    requires stream.Valid()
    modifies stream`position
    ensures stream.Valid()
    ensures r.Ok? <==> Decode(stream.contents, old(stream.position)).Ok?
    ensures r.Ok? ==> Decode(stream.contents, old(stream.position)) == Ok((r.value, stream.position))
  {
    FieldLimits();
    hide Packed, Value, Pow10, Product, Pow2;
    var length :- stream.GetBits(3);
    length := length + 1;
    if length >= 7 {
      var moved := stream.MovePositionTo(stream.position - 1);
      length := 7;
    }
    var mantissa := 0;
    var exponent := 0;
    if length == 1 {
      mantissa :- stream.GetBits(5);
    } else if length < 5 {
      mantissa :- stream.GetBits(length * 8 - 7);
      exponent :- stream.GetBits(4);
    } else if length < 7 {
      mantissa :- stream.GetBits(length * 8 - 6);
      exponent :- stream.GetBits(3);
    } else {
      mantissa :- stream.GetBits(54);
    }
    return Ok(Product(mantissa, exponent));
  }
}
