/** Reading numbers out of a plain sequence of bits: what the stream's getBits
    does, written without a cursor, for the codecs' decoders. */
module Fields {
  import opened Results
  import opened Words

  /** The n-bit number at p, if that many bits are there. */
  function Read(s: seq<bool>, p: nat, n: nat): (r: Result<nat>) {
    if p + n <= |s| then Ok(Value(s[p..p + n])) else Err
  }

  /** b stands in s at p. */
  ghost predicate At(s: seq<bool>, p: nat, b: seq<bool>) {
    p + |b| <= |s| && s[p..p + |b|] == b
  }

  lemma {:induction false} AtParts(s: seq<bool>, p: nat, a: seq<bool>, b: seq<bool>)
    requires At(s, p, a + b)
    ensures At(s, p, a) && At(s, p + |a|, b)
  {
    assert s[p..p + |a|] == s[p..p + |a + b|][..|a|];
    assert s[p + |a|..p + |a| + |b|] == s[p..p + |a + b|][|a|..];
  }

  /** A field reads back as the number written. */
  lemma {:induction false} ReadField(s: seq<bool>, p: nat, v: nat, n: nat)
    requires At(s, p, Bits(v, n)) && v < Pow2(n)
    ensures Read(s, p, n) == Ok(v)
  {
    hide Value, Bits, Pow2;
    ValueOfBits(v, n);
  }

  /** Read as two fields: the leading a bits of the number and its trailing b bits. */
  lemma {:induction false} ReadJoined(s: seq<bool>, p: nat, a: nat, b: nat)
    requires p + a + b <= |s|
    ensures Value(s[p..p + a + b]) == Value(s[p..p + a]) * Pow2(b) + Value(s[p + a..p + a + b])
  {
    assert s[p..p + a + b] == s[p..p + a] + s[p + a..p + a + b];
    ValueOfConcat(s[p..p + a], s[p + a..p + a + b]);
  }

  /** v without its low n bits, and the low w bits of a number. */
  function High(v: nat, n: nat): nat {
    Quotient(v, Pow2(n))
  }

  function Quotient(v: nat, d: nat): nat
    requires d > 0
  {
    v / d
  }

  function Low(v: nat, w: nat): nat {
    v % Pow2(w)
  }

  lemma {:induction false} BitsSplit(v: nat, a: nat, b: nat)
    ensures Bits(v, a + b) == Bits(High(v, b), a) + Bits(v, b)
  {
    if b > 0 {
      BitsSplit(v / 2, a, b - 1);
      HalfThenDivide(v, Pow2(b - 1));
      assert Bits(v, a + b) == Bits(v / 2, a + b - 1) + [v % 2 == 1];
    }
  }

  lemma {:induction false} HalfThenDivide(v: nat, p: nat)
    requires p > 0
    ensures v / 2 / p == v / (2 * p)
    ensures v % (2 * p) == 2 * ((v / 2) % p) + v % 2
  {
    var q, r := v / 2 / p, (v / 2) % p;
    assert v / 2 == q * p + r;
    assert v == q * (2 * p) + (2 * r + v % 2);
    DivModUnique(q, 2 * r + v % 2, 2 * p);
  }

  lemma {:induction false} ValueOfLow(v: nat, n: nat)
    ensures Value(Bits(v, n)) == Low(v, n)
  {
    if n > 0 {
      ValueOfLow(v / 2, n - 1);
      HalfThenDivide(v, Pow2(n - 1));
      assert Bits(v, n)[..n - 1] == Bits(v / 2, n - 1);
    }
  }

  /** A field inside a wider one: the w bits that start `off` places in. */
  lemma {:induction false} SubField(s: seq<bool>, p: nat, v: nat, n: nat, off: nat, w: nat)
    requires At(s, p, Bits(v, n)) && off + w <= n
    ensures Read(s, p + off, w) == Ok(Low(High(v, n - off - w), w))
  {
    hide Bits, Value, Pow2, High, Low;
    BitsSplit(v, off, n - off);
    AtParts(s, p, Bits(High(v, n - off), off), Bits(v, n - off));
    BitsSplit(v, w, n - off - w);
    AtParts(s, p + off, Bits(High(v, n - off - w), w), Bits(v, n - off - w));
    ValueOfLow(High(v, n - off - w), w);
  }
}
