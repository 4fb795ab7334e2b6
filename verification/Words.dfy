/** Unsigned 64-bit words as the C++ standard defines them: a word is a natural
    below 2^64, the shifts are arithmetic, and `&`, `|`, `~` act on its bit
    pattern. Patterns are written most significant bit first. */
module Words {
  type Long = x: nat | x <= 0xffff_ffff_ffff_ffff

  function Pow2(n: nat): (p: nat)
    ensures p > 0
  {
    if n == 0 then 1 else 2 * Pow2(n - 1)
  }

  /** The low n bits of x, most significant first. */
  function Bits(x: nat, n: nat): (b: seq<bool>)
    ensures |b| == n
  {
    if n == 0 then [] else Bits(x / 2, n - 1) + [x % 2 == 1]
  }

  /** The number a bit run spells. */
  function Value(b: seq<bool>): (x: nat)
    ensures x < Pow2(|b|)
  {
    if b == [] then 0 else 2 * Value(b[..|b| - 1]) + if b[|b| - 1] then 1 else 0
  }

  lemma {:induction false} Pow2Add(a: nat, b: nat)
    ensures Pow2(a + b) == Pow2(a) * Pow2(b)
  {
    if b > 0 {
      Pow2Add(a, b - 1);
    }
  }

  lemma {:induction false} Pow2Is64()
    ensures Pow2(64) == 0x1_0000_0000_0000_0000
  {
    assert Pow2(8) == 256;
    Pow2Add(8, 8);
    Pow2Add(16, 16);
    Pow2Add(32, 32);
  }

  lemma {:induction false} Pow2Monotone(a: nat, b: nat)
    requires a <= b
    ensures Pow2(a) <= Pow2(b)
  {
    if a < b {
      Pow2Monotone(a, b - 1);
    }
  }

  lemma {:induction false} ValueOfBits(x: nat, n: nat)
    requires x < Pow2(n)
    ensures Value(Bits(x, n)) == x
  {
    if n > 0 {
      ValueOfBits(x / 2, n - 1);
      assert Bits(x, n)[..n - 1] == Bits(x / 2, n - 1);
    }
  }

  lemma {:induction false} BitsOfValue(b: seq<bool>)
    ensures Bits(Value(b), |b|) == b
  {
    if b != [] {
      BitsOfValue(b[..|b| - 1]);
    }
  }

  lemma {:induction false} ValueOfConcat(a: seq<bool>, b: seq<bool>)
    ensures Value(a + b) == Value(a) * Pow2(|b|) + Value(b)
  {
    hide Value, Pow2;
    if b == [] {
      assert a + b == a;
      PowStep(0);
      ValueStep(b);
    } else {
      var c := b[..|b| - 1];
      ValueOfConcat(a, c);
      ValueStep(a + b);
      ValueStep(b);
      PowStep(|c|);
      assert (a + b)[..|a + b| - 1] == a + c;
      Doubled(Value(a), Pow2(|c|));
    }
  }

  lemma ValueStep(b: seq<bool>)
    ensures b == [] ==> Value(b) == 0
    ensures b != [] ==> Value(b) == 2 * Value(b[..|b| - 1]) + if b[|b| - 1] then 1 else 0
  {
  }

  lemma PowStep(n: nat)
    ensures Pow2(0) == 1 && Pow2(n + 1) == 2 * Pow2(n)
  {
  }

  lemma Doubled(x: nat, y: nat)
    ensures x * (2 * y) == 2 * (x * y)
  {
  }

  function Zeros(n: nat): (b: seq<bool>)
    ensures |b| == n
  {
    seq(n, _ => false)
  }

  lemma {:induction false} ValueOfZeros(n: nat)
    ensures Value(Zeros(n)) == 0
  {
    if n > 0 {
      ValueOfZeros(n - 1);
      assert Zeros(n)[..n - 1] == Zeros(n - 1);
    }
  }

  lemma {:induction false} ValueOfPadded(n: nat, b: seq<bool>)
    ensures Value(Zeros(n) + b) == Value(b)
  {
    ValueOfConcat(Zeros(n), b);
    ValueOfZeros(n);
  }

  /** The 64 bits of a word. */
  function Pattern(x: Long): (b: seq<bool>)
    ensures |b| == 64
  {
    Bits(x, 64)
  }

  lemma {:induction false} PatternOfValue(b: seq<bool>)
    requires |b| == 64
    ensures Value(b) <= 0xffff_ffff_ffff_ffff
    ensures Pattern(Value(b)) == b
  {
    Pow2Is64();
    BitsOfValue(b);
  }

  lemma {:induction false} ValueOfPattern(x: Long)
    ensures Value(Pattern(x)) == x
  {
    Pow2Is64();
    ValueOfBits(x, 64);
  }

  lemma MultipleAtLeast(k: int, d: int)
    requires k >= 1 && d >= 0
    ensures k * d >= d
  {
  }

  lemma {:induction false} SmallMultiple(k: int, d: int)
    requires d >= 0
    requires k * d < d && -d < k * d
    ensures k == 0
  {
    if k >= 1 {
      MultipleAtLeast(k, d);
    } else if k <= -1 {
      MultipleAtLeast(-k, d);
    }
  }

  lemma {:induction false} DivModUnique(q: nat, r: nat, d: nat)
    requires r < d
    ensures (q * d + r) / d == q && (q * d + r) % d == r
  {
    var a := q * d + r;
    assert (a / d - q) * d == r - a % d;
    SmallMultiple(a / d - q, d);
  }

  /** x >> n. The standard leaves n >= 64 undefined, so callers must exclude it. */
  function Shr(x: Long, n: nat): (r: Long)
    requires n < 64
    ensures Pattern(r) == Zeros(n) + Pattern(x)[..64 - n]
  {
    var q := x / Pow2(n);
    ShrPattern(x, n, q);
    q
  }

  lemma {:induction false} ShrPattern(x: Long, n: nat, q: int)
    requires n < 64 && q == x / Pow2(n)
    ensures 0 <= q <= 0xffff_ffff_ffff_ffff
    ensures Pattern(q) == Zeros(n) + Pattern(x)[..64 - n]
  {
    hide Pattern, Value, Bits, Zeros, Pow2;
    var b := Pattern(x);
    var top := b[..64 - n];
    ValueOfPattern(x);
    ValueOfConcat(top, b[64 - n..]);
    assert b == top + b[64 - n..];
    DivModUnique(Value(top), Value(b[64 - n..]), Pow2(n));
    ValueOfPadded(n, top);
    PatternOfValue(Zeros(n) + top);
  }

  /** x << n, bits pushed past the top lost. */
  function Shl(x: Long, n: nat): (r: Long)
    requires n < 64
    ensures Pattern(r) == Pattern(x)[n..] + Zeros(n)
  {
    ShlPattern(x, n);
    (x * Pow2(n)) % 0x1_0000_0000_0000_0000
  }

  lemma {:induction false} ShlPattern(x: Long, n: nat)
    requires n < 64
    ensures Pattern((x * Pow2(n)) % 0x1_0000_0000_0000_0000) == Pattern(x)[n..] + Zeros(n)
  {
    hide Pattern, Value, Bits, Zeros, Pow2;
    var b := Pattern(x);
    var low := b[n..] + Zeros(n);
    Pow2Is64();
    ValueOfPattern(x);
    ValueOfZeros(n);
    ValueOfConcat(b, Zeros(n));
    ValueOfConcat(b[..n], low);
    assert b + Zeros(n) == b[..n] + low;
    DivModUnique(Value(b[..n]), Value(low), Pow2(64));
    PatternOfValue(low);
  }

  function Or(x: Long, y: Long): (r: Long)
    ensures forall i :: 0 <= i < 64 ==> Pattern(r)[i] == (Pattern(x)[i] || Pattern(y)[i])
  {
    var b := seq(64, i requires 0 <= i < 64 => Pattern(x)[i] || Pattern(y)[i]);
    PatternOfValue(b);
    Value(b)
  }

  function And(x: Long, y: Long): (r: Long)
    ensures forall i :: 0 <= i < 64 ==> Pattern(r)[i] == (Pattern(x)[i] && Pattern(y)[i])
  {
    var b := seq(64, i requires 0 <= i < 64 => Pattern(x)[i] && Pattern(y)[i]);
    PatternOfValue(b);
    Value(b)
  }

  function Not(x: Long): (r: Long)
    ensures forall i :: 0 <= i < 64 ==> Pattern(r)[i] == !Pattern(x)[i]
  {
    var b := seq(64, i requires 0 <= i < 64 => !Pattern(x)[i]);
    PatternOfValue(b);
    Value(b)
  }

  /** The top bits of a number below 2^n are clear; its low n bits are Bits(v, n). */
  lemma {:induction false} PatternOfSmall(v: Long, n: nat)
    requires n <= 64 && v < Pow2(n)
    ensures Pattern(v) == Zeros(64 - n) + Bits(v, n)
  {
    ValueOfBits(v, n);
    ValueOfPadded(64 - n, Bits(v, n));
    PatternOfValue(Zeros(64 - n) + Bits(v, n));
  }

  /** A word whose low places hold b, zeros above, is the number b spells. */
  lemma {:induction false} ValueOfLowBits(x: Long, b: seq<bool>)
    requires |b| <= 64
    requires Pattern(x) == Zeros(64 - |b|) + b
    ensures x == Value(b)
  {
    ValueOfPattern(x);
    ValueOfPadded(64 - |b|, b);
  }

  // src/BitIO.cpp:204-226

  /** The low n bits set. */
  function RightMask(n: nat): (r: Long)
    requires n <= 64
    ensures forall i :: 0 <= i < 64 ==> Pattern(r)[i] == (64 - n <= i)
  {
    RightMaskPattern(n);
    if n == 64 then 0xffff_ffff_ffff_ffff else Shl(1, n) - 1
  }

  lemma {:induction false} ValueOfOnes(n: nat)
    ensures Value(seq(n, _ => true)) == Pow2(n) - 1
  {
    if n > 0 {
      ValueOfOnes(n - 1);
      assert seq(n, _ => true)[..n - 1] == seq(n - 1, _ => true);
    }
  }

  lemma {:induction false} RightMaskPattern(n: nat)
    requires n <= 64
    ensures n < 64 ==> Shl(1, n) == Pow2(n) >= 1
    ensures Pow2(n) - 1 <= 0xffff_ffff_ffff_ffff
    ensures n == 64 ==> Pow2(n) - 1 == 0xffff_ffff_ffff_ffff
    ensures Pattern(Pow2(n) - 1) == Zeros(64 - n) + seq(n, _ => true)
  {
    Pow2Is64();
    Pow2Monotone(n, 64);
    if n < 64 {
      Pow2Add(n, 64 - n);
      assert Pow2(n) < Pow2(64) by {
        Pow2Monotone(n + 1, 64);
      }
      DivModUnique(0, Pow2(n), Pow2(64));
    }
    var ones := seq(n, _ => true);
    ValueOfOnes(n);
    ValueOfPadded(64 - n, ones);
    PatternOfValue(Zeros(64 - n) + ones);
  }

  /** n set bits, moved up by shift places. */
  function CenterMask(n: nat, shift: nat): (r: Long)
    requires n <= 64 && shift < 64
    ensures forall i :: 0 <= i < 64 ==> Pattern(r)[i] == (64 - n - shift <= i < 64 - shift)
  {
    Shl(RightMask(n), shift)
  }

  /** The high n bits set. */
  function LeftMask(n: nat): (r: Long)
    requires n <= 64
    ensures forall i :: 0 <= i < 64 ==> Pattern(r)[i] == (i < n)
  {
    Not(RightMask(64 - n))
  }

  // The two steps every packed access is made of.

  /** Bits [at, at + n) of a word, moved down to the low places. */
  lemma Extract(w: Long, at: nat, n: nat)
    requires at + n <= 64 && n >= 1
    ensures Pattern(And(Shr(w, 64 - at - n), RightMask(n))) == Zeros(64 - n) + Pattern(w)[at..at + n]
  {
  }

  /** n low bits of v laid over bits [at, at + n) of a word. */
  lemma Splice(w: Long, v: Long, at: nat, n: nat)
    requires at + n <= 64 && n >= 1
    requires forall i :: 0 <= i < at || at + n <= i < 64 ==> !Pattern(v)[i]
    ensures Pattern(Or(And(w, Not(CenterMask(n, 64 - at - n))), v))
         == Pattern(w)[..at] + Pattern(v)[at..at + n] + Pattern(w)[at + n..]
  {
    hide Or, And, Not, CenterMask, Pattern;
  }

  /** A word's bits moved up n places and the top n bits of another put below. */
  lemma JoinHalves(high: Long, low: Long, n: nat)
    requires 1 <= n < 64
    ensures Pattern(Or(Shl(high, n), Shr(low, 64 - n))) == Pattern(high)[n..] + Pattern(low)[..n]
  {
  }

  /** The low n bits of one word followed by the high bits of the next. */
  lemma Seam(high: Long, low: Long, n: nat)
    requires 1 <= n < 64
    ensures Pattern(Or(Shr(low, n), Shl(high, 64 - n))) == Pattern(high)[64 - n..] + Pattern(low)[..64 - n]
  {
  }

  /** A word gapped by n places at bit `at`; what is pushed out is lost. */
  lemma {:induction false} Opened(w: Long, at: nat, n: nat)
    requires at < 64 && 1 <= n < 64
    ensures forall j :: 0 <= j < at ==> Pattern(Or(KeepLeft(w, at), MovedRight(w, at, n)))[j] == Pattern(w)[j]
    ensures forall j :: at + n <= j < 64
                    ==> Pattern(Or(KeepLeft(w, at), MovedRight(w, at, n)))[j] == Pattern(w)[j - n]
  {
    hide Or, KeepLeft, MovedRight, Pattern;
  }

  /** The part of a word left of bit `at`. */
  function KeepLeft(w: Long, at: nat): (r: Long)
    requires at < 64
    ensures Pattern(r) == Pattern(w)[..at] + Zeros(64 - at)
  {
    if at == 0 then (ValueOfZeros(64); PatternOfValue(Zeros(64)); 0) else And(w, LeftMask(at))
  }

  /** The part from bit `at` on, moved n places right. */
  function MovedRight(w: Long, at: nat, n: nat): (r: Long)
    requires at < 64 && n < 64
    ensures Pattern(r) == if at + n > 64 then Zeros(64) else Zeros(at + n) + Pattern(w)[at..64 - n]
  {
    if at + n > 64 then (ValueOfZeros(64); PatternOfValue(Zeros(64)); 0)
    else And(Shr(w, n), RightMask(64 - (at + n)))
  }
}
