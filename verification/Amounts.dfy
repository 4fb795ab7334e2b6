/** The wallet's amount texts: src/AssetWallet.cpp (parseAssetAmount, satsToDecimal,
    dgbToSats) and DigiAsset::getStrCount. */
module Amounts {
  import opened Numbers
  import opened Results
  import opened Radix
  import opened Decimal

  const UINT64: nat := 0x1_0000_0000_0000_0000
  const INT64: nat := 0x8000_0000_0000_0000
  const COIN: nat := 100000000

  // Asset counts.

  function StrCount(count: nat, divisibility: nat): string {
    var p := Padded(count, divisibility + 1);
    p[..|p| - divisibility] + "." + p[|p| - divisibility..]
  }

  // src/DigiAsset.cpp:533-539
  method GetStrCount(count: nat, divisibility: nat) returns (result: string)
    ensures result == StrCount(count, divisibility)
  {
    result := Text(count);
    var neededDecimals := divisibility + 1 - |result|;
    if neededDecimals > 0 {
      result := Zeros(neededDecimals) + result;
    }
    result := result[..|result| - divisibility] + "." + result[|result| - divisibility..];
  }

  lemma DigitsSplit(p: string, k: nat)
    requires AllDigits(p) && k <= |p|
    ensures AllDigits(p[..k]) && AllDigits(p[k..]) && p[..k] + p[k..] == p
  {
  }

  /** The text of a count is that count over 10^divisibility, with exactly divisibility
      decimals and at least one digit before the point. */
  lemma {:induction false} StrCountDenotes(count: nat, divisibility: nat)
    ensures var s := StrCount(count, divisibility);
            Denotes(s, count, divisibility) && |Fraction(s)| == divisibility && |Whole(s)| >= 1
  {
    hide Value, Padded, Denotes, Whole, Fraction;
    var p := Padded(count, divisibility + 1);
    var w, f := p[..|p| - divisibility], p[|p| - divisibility..];
    DigitsSplit(p, |p| - divisibility);
    Pointed(w, f);
  }

  /** Without decimals the point is still there, and only then is it last. */
  lemma {:induction false} PointLast(count: nat, divisibility: nat)
    ensures divisibility == 0 ==> StrCount(count, divisibility) == Text(count) + "."
    ensures var s := StrCount(count, divisibility);
            s[|s| - 1] == '.' <==> divisibility == 0
  {
    hide Text, Padded;
    var p := Padded(count, divisibility + 1);
    if divisibility > 0 {
      assert StrCount(count, divisibility)[|p|] == p[|p| - 1];
    } else {
      PaddedToOne(count);
      assert p[..|p|] == p;
    }
  }

  lemma PaddedToOne(count: nat)
    ensures Padded(count, 1) == Text(count)
  {
  }

  /** Digits around a point denote what they spell over the power of ten. */
  lemma {:induction false} Pointed(w: string, f: string)
    requires AllDigits(w) && AllDigits(f) && AllDigits(w + f)
    ensures Whole(w + "." + f) == w && Fraction(w + "." + f) == f
    ensures Denotes(w + "." + f, Value(w + f), |f|)
  {
    Parts(w, f);
    hide Find, Value, Pow, Whole, Fraction;
  }

  /** What the trimmed and padded fraction makes of the text. */
  lemma {:induction false} Canonical(text: string, trimmed: string, k: nat, decimals: nat, n: nat)
    requires Unsigned(text) && Fraction(text) == trimmed + Zeros(k) && AllDigits(trimmed) && |trimmed| <= decimals
    ensures var padded := trimmed + Zeros(decimals - |trimmed|);
            && AllDigits(padded)
            && (Denotes(text, n, decimals) <==> n == Value(Whole(text)) * Pow(10, decimals) + Value(padded))
  {
    hide Find, Value, Pow, Whole, Fraction;
    var w := Whole(text);
    var padded := trimmed + Zeros(decimals - |trimmed|);
    var v := Value(w + trimmed);
    assert (w + trimmed) + Zeros(k) == w + Fraction(text);
    assert (w + trimmed) + Zeros(decimals - |trimmed|) == w + padded;
    ValueConcat(w, trimmed);
    ValuePadBack(w + trimmed, k);
    ValuePadBack(w + trimmed, decimals - |trimmed|);
    ValuePadBack(trimmed, decimals - |trimmed|);
    ValueConcat(w, padded);
    PowAdd(10, |trimmed|, k);
    PowAdd(10, decimals - |trimmed|, |trimmed|);
    Scaled(n, v, Pow(10, |trimmed|), Pow(10, k), Pow(10, decimals - |trimmed|));
  }

  lemma {:induction false} Scaled(n: nat, v: nat, pl: nat, pk: nat, pr: nat)
    requires pl > 0 && pk > 0
    ensures n * (pl * pk) == v * pk * (pr * pl) <==> n == v * pr
  {
    assert v * pk * (pr * pl) == (v * pr) * (pl * pk) by {
      Regroup(v, pk, pr, pl);
    }
    CancelFactor(n, v * pr, pl * pk);
  }

  lemma {:induction false} Regroup(v: nat, pk: nat, pr: nat, pl: nat)
    ensures v * pk * (pr * pl) == (v * pr) * (pl * pk)
  {
    assert v * pk * (pr * pl) == v * (pk * (pr * pl));
    assert pk * (pr * pl) == pr * (pl * pk);
    assert v * (pr * (pl * pk)) == (v * pr) * (pl * pk);
  }

  lemma {:induction false} CancelFactor(a: nat, b: nat, p: nat)
    requires p > 0
    ensures a * p == b * p <==> a == b
  {
    if a < b {
      assert (a + 1) * p <= b * p by { Monotone(a + 1, b, p); }
      assert (a + 1) * p == a * p + p;
    } else if b < a {
      assert (b + 1) * p <= a * p by { Monotone(b + 1, a, p); }
      assert (b + 1) * p == b * p + p;
    }
  }

  lemma Monotone(a: nat, b: nat, p: nat)
    requires a <= b
    ensures a * p <= b * p
  {
  }

  /** A fraction that still has more digits than the asset, its last one not 0, denotes
      no whole number of units. */
  lemma {:induction false} TooFine(text: string, trimmed: string, k: nat, decimals: nat, n: nat)
    requires Fraction(text) == trimmed + Zeros(k) && |trimmed| > decimals && trimmed[|trimmed| - 1] != '0'
    ensures !Denotes(text, n, decimals)
  {
    if Denotes(text, n, decimals) {
      hide Find, Whole, Fraction;
      var w, front, last := Whole(text), trimmed[..|trimmed| - 1], trimmed[|trimmed| - 1];
      FractionDigits(text, trimmed, k);
      Denoted(text, trimmed, k, decimals, n);
      assert w + trimmed == (w + front) + [last];
      hide Value, Pow;
      ValueStep(w + front, last);
      assert Pow(10, |trimmed| - decimals) == 10 * Pow(10, |trimmed| - decimals - 1) by {
        PowAdd(10, 1, |trimmed| - decimals - 1);
        TenOnce();
      }
      Tens(n, Pow(10, |trimmed| - decimals - 1), Value(w + front), DigitValue(last));
    }
  }

  lemma {:induction false} TenOnce()
    ensures Pow(10, 1) == 10
  {
    assert Pow(10, 0) == 1;
  }

  lemma {:induction false} FractionDigits(text: string, trimmed: string, k: nat)
    requires AllDigits(Fraction(text)) && Fraction(text) == trimmed + Zeros(k)
    ensures AllDigits(trimmed)
  {
    forall i | 0 <= i < |trimmed|
      ensures IsDigit(trimmed[i])
    {
      assert Fraction(text)[i] == trimmed[i];
    }
  }

  lemma {:induction false} Denoted(text: string, trimmed: string, k: nat, decimals: nat, n: nat)
    requires Denotes(text, n, decimals) && Fraction(text) == trimmed + Zeros(k)
    requires AllDigits(trimmed) && |trimmed| >= decimals
    ensures AllDigits(Whole(text) + trimmed) && n * Pow(10, |trimmed| - decimals) == Value(Whole(text) + trimmed)
  {
    hide Find, Value, Pow, Whole, Fraction;
    var w := Whole(text);
    assert (w + trimmed) + Zeros(k) == w + Fraction(text);
    ValuePadBack(w + trimmed, k);
    PowAdd(10, |trimmed|, k);
    PowAdd(10, |trimmed| - decimals, decimals);
    var more := Pow(10, |trimmed| - decimals);
    assert n * ((more * Pow(10, decimals)) * Pow(10, k)) == (Value(w + trimmed) * Pow(10, k)) * Pow(10, decimals);
    Cancel2(n, more, Pow(10, decimals), Pow(10, k), Value(w + trimmed));
  }

  lemma {:induction false} Cancel2(n: nat, more: nat, pd: nat, pk: nat, v: nat)
    requires pd > 0 && pk > 0 && n * ((more * pd) * pk) == (v * pk) * pd
    ensures n * more == v
  {
    assert n * ((more * pd) * pk) == (n * more) * (pk * pd) by {
      assert (more * pd) * pk == more * (pk * pd);
      assert n * (more * (pk * pd)) == (n * more) * (pk * pd);
    }
    assert (v * pk) * pd == v * (pk * pd);
    CancelFactor(n * more, v, pk * pd);
  }

  lemma {:induction false} Tens(n: nat, q: nat, f: nat, d: nat)
    requires n * (10 * q) == f * 10 + d && 0 <= d < 10
    ensures d == 0
  {
    assert n * (10 * q) == 10 * (n * q);
  }

  lemma ZerosMore(s: string, k: nat)
    requires s != [] && s[|s| - 1] == '0'
    ensures s + Zeros(k) == s[..|s| - 1] + Zeros(k + 1)
  {
  }

  method Trimmed(frac: string) returns (trimmed: string, ghost k: nat)
    ensures frac == trimmed + Zeros(k) && (trimmed != [] ==> trimmed[|trimmed| - 1] != '0')
  {
    trimmed, k := frac, 0;
    assert frac == frac + Zeros(0);
    while trimmed != [] && trimmed[|trimmed| - 1] == '0'
      invariant frac == trimmed + Zeros(k)
    {
      ZerosMore(trimmed, k);
      trimmed := trimmed[..|trimmed| - 1];
      k := k + 1;
    }
  }

  method Digits(s: string) returns (all: bool)
    ensures all == AllDigits(s)
  {
    for i := 0 to |s|
      invariant AllDigits(s[..i])
    {
      if !IsDigit(s[i]) {
        return false;
      }
      assert s[..i + 1] == s[..i] + [s[i]];
    }
    assert s[..|s|] == s;
    return true;
  }

  lemma {:induction false} UnsignedAs(text: string, trimmed: string, k: nat, pad: nat)
    requires Fraction(text) == trimmed + Zeros(k)
    ensures AllDigits(Whole(text) + (trimmed + Zeros(pad))) <==> Unsigned(text)
    ensures Unsigned(text) ==> AllDigits(trimmed)
  {
    hide Whole, Fraction;
    var w, f := Whole(text), trimmed + Zeros(pad);
    if AllDigits(w + f) {
      forall i | 0 <= i < |w| ensures IsDigit(w[i]) { assert (w + f)[i] == w[i]; }
      forall i | 0 <= i < |trimmed| ensures IsDigit(trimmed[i]) { assert (w + f)[|w| + i] == trimmed[i]; }
    }
    if Unsigned(text) {
      forall i | 0 <= i < |trimmed| ensures IsDigit(trimmed[i]) { assert Fraction(text)[i] == trimmed[i]; }
    }
  }

  // src/AssetWallet.cpp:159-164
  /** An integral JSON amount, one outside 63 bits being refused when it is read. */
  method ParseIntegralAmount(amount: int, decimals: nat) returns (r: Result<nat>)
    ensures r == if decimals <= 18 && amount > 0 && amount * Pow(10, decimals) <= MAX_COUNT
                 then Ok(amount * Pow(10, decimals)) else Err
  {
    hide Pow;
    if decimals > 18 || amount >= INT64 || amount <= 0 {
      TooLarge(amount, Pow(10, decimals));
      return Err;
    }
    var multiplier := Pow(10, decimals);
    if amount > MAX_COUNT / multiplier {
      QuotientBelow(MAX_COUNT, multiplier, amount);
      return Err;
    }
    QuotientFits(MAX_COUNT, multiplier, amount);
    return Ok(amount * multiplier);
  }

  lemma TooLarge(amount: int, multiplier: nat)
    requires multiplier > 0
    ensures amount >= INT64 ==> amount * multiplier > MAX_COUNT
  {
    if amount >= INT64 {
      ExactAtLeast(amount, multiplier, 0);
    }
  }

  /** A whole amount is the same as a number and as a text. */
  method NumberOrText(amount: nat, decimals: nat) returns (r: Result<nat>, s: Result<nat>)
    ensures r == s
  {
    hide Find, Value, Pow, Denotes;
    r := ParseIntegralAmount(amount, decimals);
    s := ParseAssetAmount(Text(amount), decimals);
    if decimals <= 18 {
      WholeDenotes(Text(amount), decimals);
      var exact := amount * Pow(10, decimals);
      ExactAtLeast(amount, Pow(10, decimals), 0);
      assert Denotes(Text(amount), exact, decimals);
    }
  }

  lemma {:induction false} WholeDenotes(text: string, decimals: nat)
    requires AllDigits(text)
    ensures forall n :: Denotes(text, n, decimals) <==> n == Value(text) * Pow(10, decimals)
  {
    assert '.' !in text;
    assert Whole(text) == text && Fraction(text) == "";
    hide Find, Value, Pow, Denotes;
    assert "" + Zeros(0) == "" && "" + Zeros(decimals) == Zeros(decimals);
    ValueOfZeros(decimals);
    forall n ensures Denotes(text, n, decimals) <==> n == Value(text) * Pow(10, decimals) {
      Canonical(text, "", 0, decimals, n);
    }
  }

  // src/AssetWallet.cpp:152-206
  /** A string amount: n exactly when the text denotes n / 10^decimals and n is between 1
      and the largest count an output can hold; everything else is refused. */
  method ParseAssetAmount(text: string, decimals: nat) returns (r: Result<nat>)
    ensures decimals > 18 ==> r.Err?
    ensures r.Ok? ==> 1 <= r.value <= MAX_COUNT && Denotes(text, r.value, decimals)
    ensures r.Err? && decimals <= 18 ==> forall n :: 1 <= n <= MAX_COUNT ==> !Denotes(text, n, decimals)
  {
    hide Find, Value, Pow, Whole, Fraction, Denotes, Unsigned, AllDigits, Zeros;
    if decimals > 18 {
      return Err;
    }
    var multiplier := Pow(10, decimals);
    if text == [] {
      EmptyDenotes(decimals);
      return Err;
    }
    var whole := Whole(text);
    var frac, k := Trimmed(Fraction(text));
    if |frac| > decimals {
      forall n | 1 <= n <= MAX_COUNT ensures !Denotes(text, n, decimals) { TooFine(text, frac, k, decimals, n); }
      return Err;
    }
    var short := |frac|;
    var padded := frac + Zeros(decimals - short);
    UnsignedAs(text, frac, k, decimals - short);
    if whole == [] && padded == [] {
      assert Fraction(text) == Zeros(k);
      BareDenotes(text, k, decimals);
      return Err;
    }
    var digits := Digits(whole + padded);
    if !digits {
      NotUnsigned(text, decimals);
      return Err;
    }
    r := Assembled(text, whole, frac, k, padded, decimals, multiplier);
  }

  lemma {:induction false} EmptyDenotes(decimals: nat)
    ensures forall n :: 1 <= n ==> !Denotes("", n, decimals)
  {
    assert Whole("") == "" && Fraction("") == "";
    assert Pow(10, 0) == 1 && Value("" + "") == 0;
  }

  lemma {:induction false} BareDenotes(text: string, k: nat, decimals: nat)
    requires Whole(text) == "" && Fraction(text) == Zeros(k)
    ensures forall n :: 1 <= n ==> !Denotes(text, n, decimals)
  {
    hide Find, Whole, Fraction, Pow;
    ValueOfZeros(k);
    assert "" + Zeros(k) == Zeros(k);
    hide Value;
    forall n: nat | 1 <= n
      ensures n * Pow(10, k) > 0
    {
      Monotone(1, n, Pow(10, k));
    }
  }

  lemma NotUnsigned(text: string, decimals: nat)
    requires !Unsigned(text)
    ensures forall n :: !Denotes(text, n, decimals)
  {
  }

  /** The arithmetic on the checked digits; the sum stays far below 2^64. */
  method Assembled(text: string, whole: string, ghost frac: string, ghost k: nat, padded: string, decimals: nat,
                   multiplier: nat)
    returns (r: Result<nat>)
    requires Unsigned(text) && whole == Whole(text) && AllDigits(frac)
    requires Fraction(text) == frac + Zeros(k) && |frac| <= decimals && padded == frac + Zeros(decimals - |frac|)
    requires decimals <= 18 && multiplier == Pow(10, decimals)
    ensures r.Ok? ==> 1 <= r.value <= MAX_COUNT && Denotes(text, r.value, decimals)
    ensures r.Err? ==> forall n :: 1 <= n <= MAX_COUNT ==> !Denotes(text, n, decimals)
  {
    hide Find, Value, Pow, Whole, Fraction, Denotes, Zeros;
    ghost var exact := Value(whole) * multiplier + Value(padded);
    forall n ensures Denotes(text, n, decimals) <==> n == exact { Canonical(text, frac, k, decimals, n); }
    hide AllDigits;
    var wholeVal := Bounded(whole, UINT64);
    if wholeVal.Err? {
      ExactAtLeast(Value(whole), multiplier, Value(padded));
      return Err;
    }
    if wholeVal.value > MAX_COUNT / multiplier {
      QuotientBelow(MAX_COUNT, multiplier, wholeVal.value);
      return Err;
    }
    ValueBelow(padded);
    UpTo18(decimals);
    QuotientFits(MAX_COUNT, multiplier, wholeVal.value);
    var fracVal := Value(padded);
    var result := fracVal + wholeVal.value * multiplier;
    assert result < UINT64;
    if result == 0 || result > MAX_COUNT {
      return Err;
    }
    return Ok(result);
  }

  lemma ExactAtLeast(w: nat, m: nat, f: nat)
    requires m > 0
    ensures w * m + f >= w
  {
  }

  lemma {:induction false} QuotientBelow(n: nat, m: nat, w: nat)
    requires m > 0 && w > n / m
    ensures w * m > n
  {
    assert n < (n / m + 1) * m;
    Monotone(n / m + 1, w, m);
  }

  lemma {:induction false} QuotientFits(n: nat, m: nat, w: nat)
    requires m > 0 && w <= n / m
    ensures w * m <= n
  {
    Monotone(w, n / m, m);
  }

  lemma {:induction false} UpTo18(decimals: nat)
    requires decimals <= 18
    ensures Pow(10, decimals) <= 1000000000000000000
  {
    PowAdd(10, decimals, 18 - decimals);
    hide Pow;
    assert Pow(10, 18) == 1000000000000000000 by { TenTo18(); }
    ExactAtLeast(Pow(10, decimals), Pow(10, 18 - decimals), 0);
  }

  lemma {:induction false} TenTo18()
    ensures Pow(10, 18) == 1000000000000000000 && Pow(10, 8) == COIN
  {
    TenOnce();
    hide Pow;
    PowAdd(10, 1, 1);
    PowAdd(10, 2, 2);
    PowAdd(10, 4, 4);
    PowAdd(10, 8, 8);
    PowAdd(10, 16, 2);
    assert Pow(10, 8) == 100000000;
    assert Pow(10, 16) == 10000000000000000;
  }

  /** Every count the wallet can hold comes back from the text getStrCount shows for it. */
  method CountReadsBack(count: nat, divisibility: nat) returns (r: Result<nat>)
    requires divisibility <= 18
    ensures if 1 <= count <= MAX_COUNT then r == Ok(count) else r == Err
  {
    var s := GetStrCount(count, divisibility);
    StrCountDenotes(count, divisibility);
    r := ParseAssetAmount(s, divisibility);
    if r.Ok? {
      DenotesOne(s, count, r.value, divisibility);
    }
  }

  lemma {:induction false} DenotesOne(s: string, a: nat, b: nat, d: nat)
    requires Denotes(s, a, d) && Denotes(s, b, d)
    ensures a == b
  {
    CancelFactor(a, b, Pow(10, |Fraction(s)|));
  }

  // DigiByte amounts.

  function SatsText(sats: nat): string {
    Text(sats / COIN) + "." + Padded(sats % COIN, 8)
  }

  // src/AssetWallet.cpp:208-213
  method SatsToDecimal(sats: nat) returns (text: string)
    ensures text == SatsText(sats)
  {
    var whole := Text(sats / COIN);
    var frac := PadFrontTo8(Text(sats % COIN));
    text := whole + "." + frac;
  }

  method PadFrontTo8(bare: string) returns (frac: string)
    ensures frac == if |bare| >= 8 then bare else Zeros(8 - |bare|) + bare
  {
    frac := bare;
    ghost var k := 0;
    while |frac| < 8
      invariant frac == Zeros(k) + bare && (k > 0 ==> |frac| <= 8)
      decreases 8 - |frac|
    {
      ZeroInFront(k, bare);
      frac := ['0'] + frac;
      k := k + 1;
    }
  }

  lemma ZeroInFront(k: nat, bare: string)
    ensures ['0'] + (Zeros(k) + bare) == Zeros(k + 1) + bare
  {
  }

  /** The text of an amount denotes it in whole coins, with exactly eight decimals. */
  lemma {:induction false} SatsTextDenotes(sats: nat)
    ensures var s := SatsText(sats);
            && Denotes(s, sats, 8) && |Fraction(s)| == 8 && s[0] != '+' && s[0] != '-'
            && Value(Whole(s)) == sats / COIN
  {
    var w, f := Text(sats / COIN), Padded(sats % COIN, 8);
    TenTo18();
    PaddedExact(sats % COIN, 8);
    hide Find, Value, Pow, Padded, Text;
    Parts(w, f);
    ValueConcat(w, f);
    assert sats == (sats / COIN) * COIN + sats % COIN;
    assert SatsText(sats)[0] == w[0] && IsDigit(w[0]);
  }

  function Body(text: string): string {
    if text != [] && text[0] == '+' then text[1..] else text
  }

  /** Unsigned digits with at most eight decimals and at least one digit, a whole part
      that fits 63 bits, and no minus sign even after a plus. */
  predicate SatsReadable(text: string) {
    var b := Body(text);
    Unsigned(b) && |Whole(b)| + |Fraction(b)| > 0 && |Fraction(b)| <= 8 && Value(Whole(b)) < INT64
  }

  /** The amount such a text denotes, in sats. */
  function ExactSats(text: string): nat
    requires SatsReadable(text)
  {
    var b := Body(text);
    var frac := Fraction(b) + Zeros(8 - |Fraction(b)|);
    Value(Whole(b)) * COIN + if AllDigits(frac) then Value(frac) else 0
  }

  /** Digits w, then perhaps a point and digits f, then perhaps a plus in front of it all. */
  predicate Spelled(text: string, w: string, f: string) {
    && AllDigits(w) && AllDigits(f)
    && (text == w + "." + f || text == "+" + w + "." + f || (f == "" && (text == w || text == "+" + w)))
  }

  /** The texts taken: at least one digit, at most eight behind the point, and fewer than 2^63
      whole coins. */
  lemma {:induction false} SatsShapes(text: string)
    ensures SatsReadable(text) <==>
            exists w, f :: && Spelled(text, w, f) && |w| + |f| >= 1 && |f| <= 8
                           && Value(w) <= 0x7fff_ffff_ffff_ffff
  {
    if SatsReadable(text) {
      Spelling(text);
      hide Value, Find, Spelled, Whole, Fraction, Body;
      assert Spelled(text, Whole(Body(text)), Fraction(Body(text)));
    }
    if w, f :| Spelled(text, w, f) && |w| + |f| >= 1 && |f| <= 8 && Value(w) <= 0x7fff_ffff_ffff_ffff {
      SpelledParts(text, w, f);
      hide Value, Find, Spelled, Whole, Fraction, Body;
    }
  }

  /** The amount of such a text is what its digits make in coins: the decimals, filled up with
      zeros to eight, are the satoshis. */
  lemma {:induction false} SatsSpelled(text: string, w: string, f: string, zeros: string)
    requires SatsReadable(text) && Spelled(text, w, f) && AllDigits(f + zeros) && |f + zeros| == 8
    requires forall i :: 0 <= i < |zeros| ==> zeros[i] == '0'
    ensures ExactSats(text) == Value(w) * 100000000 + Value(f + zeros)
  {
    SpelledParts(text, w, f);
    hide Value, Find, Spelled, Whole, Fraction, Body;
    assert zeros == Zeros(8 - |f|);
  }

  lemma {:induction false} Spelling(text: string)
    requires Unsigned(Body(text))
    ensures Spelled(text, Whole(Body(text)), Fraction(Body(text)))
  {
    var b := Body(text);
    var i := Find(b, '.');
    hide Find;
    if i < |b| {
      assert b == b[..i] + "." + b[i + 1..];
    } else {
      assert b[..i] == b;
    }
    if b != text {
      assert text == "+" + b;
      assert "+" + Whole(b) + "." + Fraction(b) == "+" + (Whole(b) + "." + Fraction(b));
    }
  }

  lemma {:induction false} SpelledParts(text: string, w: string, f: string)
    requires Spelled(text, w, f)
    ensures Unsigned(Body(text)) && Whole(Body(text)) == w && Fraction(Body(text)) == f
  {
    Parts(w, f);
    var b := if f == "" && (text == w || text == "+" + w) then w else w + "." + f;
    assert "+" + w + "." + f == "+" + (w + "." + f);
    assert text == b || text == "+" + b;
    assert b != "" ==> b[0] != '+' by {
      assert w != "" ==> b[0] == w[0] && IsDigit(w[0]);
    }
    assert Body(text) == b;
    if b == w {
      assert '.' !in w;
    }
    hide Find;
  }

  /** What 64 bits with a sign hold of a sum or a product. */
  function Wrapped(x: int): (w: int)
    ensures -(INT64 as int) <= w < INT64 as int && (w == x <==> -(INT64 as int) <= x < INT64 as int)
    ensures (x - w) % UINT64 == 0
  {
    var m := x % UINT64;
    if m < INT64 then m else m - UINT64
  }

  lemma {:induction false} WrappedOnce(x: int, y: int)
    ensures Wrapped(Wrapped(x) + y) == Wrapped(x + y)
  {
    var k := (x - Wrapped(x)) / UINT64;
    Multiple(x - Wrapped(x), k);
    SameRest(Wrapped(x) + y, k);
  }

  lemma Multiple(a: int, k: int)
    requires a % UINT64 == 0 && k == a / UINT64
    ensures a == k * UINT64
  {
  }

  lemma SameRest(a: int, k: int)
    ensures Wrapped(a + k * UINT64) == Wrapped(a)
  {
  }

  function SatsOf(text: string): Result<int> {
    if SatsReadable(text) then Ok(Wrapped(ExactSats(text))) else Err
  }

  /** Accepted or not by the shape of the text alone; the very amount it denotes comes back
      if and only if that is below 2^63 sats. */
  lemma {:induction false} SatsOfDenotes(text: string)
    ensures SatsOf(text).Ok? <==> SatsReadable(text)
    ensures SatsReadable(text) ==> Denotes(Body(text), ExactSats(text), 8)
    ensures SatsReadable(text) ==>
              ((SatsOf(text).value >= 0 && Denotes(Body(text), SatsOf(text).value, 8)) <==> ExactSats(text) < INT64)
  {
    if SatsReadable(text) {
      ExactDenotes(text);
      var r := SatsOf(text).value;
      hide Find, Value, Whole, Fraction, Denotes, Body, ExactSats;
      if r >= 0 && Denotes(Body(text), r, 8) {
        DenotesOne(Body(text), r, ExactSats(text), 8);
      }
    }
  }

  lemma {:induction false} ExactDenotes(text: string)
    requires SatsReadable(text)
    ensures Denotes(Body(text), ExactSats(text), 8)
  {
    var b := Body(text);
    var f := Fraction(b);
    hide Find, Value, Whole, Fraction, Denotes, Body;
    assert f == f + Zeros(0);
    var padded := f + Zeros(8 - |f|);
    ValuePadBack(f, 8 - |f|);
    TenTo18();
    hide Pow;
    Canonical(b, f, 0, 8, Value(Whole(b)) * COIN + Value(padded));
  }

  // src/AssetWallet.cpp:215-240
  /** One pass over the characters: digits before the point, then digits after it. */
  method DgbToSats(text: string) returns (r: Result<int>)
    ensures r == SatsOf(text)
  {
    hide Find, Value, SatsOf;
    NotReadable(text);
    var i := 0;
    if i < |text| && text[i] == '+' {
      i := i + 1;
    }
    ghost var start := i;
    ghost var b := Body(text);
    assert text[i..] == b;
    if i < |text| && text[i] == '-' {
      LeadBad(b);
      return Err;
    }
    var whole, frac, dot := "", "", false;
    while i < |text|
      invariant start <= i <= |text| && b == text[start..]
      invariant Scan(b, i - start, whole, frac, dot)
    {
      var c := text[i];
      assert b[i - start] == c;
      if c == '.' {
        if dot {
          SecondPoint(b, i - start, whole, frac);
          return Err;
        }
        ScanPoint(b, i - start, whole);
        dot := true;
      } else if IsDigit(c) {
        ScanDigit(b, i - start, whole, frac, dot);
        if dot {
          frac := frac + [c];
        } else {
          whole := whole + [c];
        }
      } else {
        ScanBad(b, i - start, whole, frac, dot);
        return Err;
      }
      i := i + 1;
    }
    ScanDone(b, whole, frac, dot);
    hide Scan, Whole, Fraction, Body;
    r := Summed(text, whole, frac);
  }

  lemma NotReadable(text: string)
    ensures !Unsigned(Body(text)) ==> SatsOf(text) == Err
  {
  }

  /** The checks and the arithmetic behind the scan. */
  method Summed(text: string, whole: string, frac: string) returns (r: Result<int>)
    requires Unsigned(Body(text)) && Whole(Body(text)) == whole && Fraction(Body(text)) == frac
    ensures r == SatsOf(text)
  {
    hide Find, Value, Whole, Fraction, Body;
    if whole == "" && frac == "" {
      return Err;
    }
    if |frac| > 8 {
      return Err;
    }
    var padded := PadTo8(frac);
    var wholeVal := Bounded(whole, INT64);
    if wholeVal.Err? {
      return Err;
    }
    WrappedOnce(wholeVal.value * COIN, Value(padded));
    return Ok(Wrapped(Wrapped(wholeVal.value * COIN) + Value(padded)));
  }

  method PadTo8(frac: string) returns (padded: string)
    requires |frac| <= 8 && AllDigits(frac)
    ensures padded == frac + Zeros(8 - |frac|) && AllDigits(padded)
  {
    padded := frac;
    var k := 0;
    assert frac + Zeros(0) == frac;
    while |padded| < 8
      invariant padded == frac + Zeros(k) && |padded| <= 8
    {
      assert (frac + Zeros(k)) + ['0'] == frac + Zeros(k + 1);
      padded := padded + ['0'];
      k := k + 1;
    }
  }

  /** What has been read so far is the collected digits with the point where it stood. */
  predicate Scan(b: string, n: nat, whole: string, frac: string, dot: bool) {
    && n <= |b| && AllDigits(whole) && AllDigits(frac)
    && (if dot then b[..n] == whole + "." + frac else b[..n] == whole && frac == "")
  }

  lemma {:induction false} ScanPoint(b: string, n: nat, whole: string)
    requires n < |b| && b[n] == '.' && Scan(b, n, whole, "", false)
    ensures Scan(b, n + 1, whole, "", true)
  {
    assert b[..n + 1] == b[..n] + ['.'];
  }

  lemma {:induction false} ScanDigit(b: string, n: nat, whole: string, frac: string, dot: bool)
    requires n < |b| && IsDigit(b[n]) && Scan(b, n, whole, frac, dot)
    ensures if dot then Scan(b, n + 1, whole, frac + [b[n]], true) else Scan(b, n + 1, whole + [b[n]], frac, false)
  {
    assert b[..n + 1] == b[..n] + [b[n]];
    if dot {
      assert whole + "." + frac + [b[n]] == whole + "." + (frac + [b[n]]);
    }
  }

  lemma {:induction false} ScanDone(b: string, whole: string, frac: string, dot: bool)
    requires Scan(b, |b|, whole, frac, dot)
    ensures Whole(b) == whole && Fraction(b) == frac && Unsigned(b)
  {
    assert b[..|b|] == b;
    if dot {
      Parts(whole, frac);
    } else {
      assert '.' !in b;
    }
  }

  lemma {:induction false} SecondPoint(b: string, n: nat, whole: string, frac: string)
    requires n < |b| && b[n] == '.' && Scan(b, n, whole, frac, true)
    ensures !Unsigned(b)
  {
    hide Find;
    var rest := b[n..];
    assert b == b[..n] + rest;
    assert b == whole + "." + (frac + rest);
    Parts(whole, frac + rest);
    assert (frac + rest)[|frac|] == '.';
  }

  lemma {:induction false} ScanBad(b: string, n: nat, whole: string, frac: string, dot: bool)
    requires n < |b| && b[n] != '.' && !IsDigit(b[n]) && Scan(b, n, whole, frac, dot)
    ensures !Unsigned(b)
  {
    if dot {
      hide Find;
      var rest := b[n..];
      assert b == b[..n] + rest;
      assert b == whole + "." + (frac + rest);
      Parts(whole, frac + rest);
      assert (frac + rest)[|frac|] == b[n];
    } else {
      var p := Find(b, '.');
      hide Find;
      assert forall i :: 0 <= i < n ==> b[i] == b[..n][i];
      assert Whole(b)[n] == b[n];
    }
  }

  lemma {:induction false} LeadBad(b: string)
    requires b != [] && b[0] == '-'
    ensures !Unsigned(b)
  {
    assert b[..0] == "";
    ScanBad(b, 0, "", "", false);
  }

  /** The text of an amount is read as that amount if and only if it is below 2^63. */
  lemma {:induction false} SatsRoundTrip(sats: nat)
    ensures SatsOf(SatsText(sats)) == Ok(sats) <==> sats < INT64
    ensures sats / COIN < INT64 ==> SatsOf(SatsText(sats)) == Ok(Wrapped(sats))
  {
    var s := SatsText(sats);
    SatsTextDenotes(sats);
    assert Body(s) == s;
    hide Find, Value, Whole, Fraction, Denotes, Body;
    if sats / COIN < INT64 {
      ExactDenotes(s);
      DenotesOne(s, sats, ExactSats(s), 8);
    }
  }

  /** The least amount that does not come back, "92233720368.54775808", comes back negative. */
  lemma {:induction false} OneTooMany()
    ensures SatsOf(SatsText(INT64)) == Ok(-(INT64 as int))
  {
    SatsRoundTrip(INT64);
    hide SatsOf, SatsText;
  }
}
