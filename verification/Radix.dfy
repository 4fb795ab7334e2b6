/** Numbers as digit sequences in any base: the least significant digit first, as
    the conversion buffers hold them, or the most significant first, as the text
    and the bytes are read. */
module Radix {
  function Pow(b: nat, e: nat): (p: nat)
    ensures b > 0 ==> p > 0
  {
    if e == 0 then 1 else b * Pow(b, e - 1)
  }

  /** Least significant digit first. */
  function Num(d: seq<nat>, base: nat): nat {
    if d == [] then 0 else d[0] + base * Num(d[1..], base)
  }

  /** Most significant digit first. */
  function Big(d: seq<nat>, base: nat): nat {
    if d == [] then 0 else Big(d[..|d| - 1], base) * base + d[|d| - 1]
  }

  function Rev<T>(s: seq<T>): (r: seq<T>)
    ensures |r| == |s| && forall i :: 0 <= i < |s| ==> r[i] == s[|s| - 1 - i]
  {
    seq(|s|, i requires 0 <= i < |s| => s[|s| - 1 - i])
  }

  ghost predicate InBase(d: seq<nat>, base: nat) {
    forall i :: 0 <= i < |d| ==> d[i] < base
  }

  /** No digit too many: the most significant is not 0 unless it stands alone. */
  ghost predicate Minimal(d: seq<nat>, base: nat) {
    d != [] && InBase(d, base) && (|d| > 1 ==> d[|d| - 1] != 0)
  }

  lemma {:induction false} BigOfRev(d: seq<nat>, base: nat)
    ensures Big(Rev(d), base) == Num(d, base)
  {
    if d != [] {
      BigOfRev(d[1..], base);
      assert Rev(d)[..|d| - 1] == Rev(d[1..]);
    }
  }

  lemma NumTail(d: seq<nat>, base: nat)
    requires d != []
    ensures Num(d, base) == d[0] + base * Num(d[1..], base)
  {
  }

  lemma TimesAtLeast(a: nat, x: nat, y: nat)
    requires x <= y
    ensures a * x <= a * y
  {
  }

  /** A minimal number of two or more digits is at least that power of the base. */
  lemma {:induction false} MinimalAtLeast(d: seq<nat>, base: nat)
    requires Minimal(d, base) && base > 1
    ensures |d| > 1 ==> Num(d, base) >= Pow(base, |d| - 1)
    ensures |d| == 1 ==> Num(d, base) == d[0]
  {
    NumTail(d, base);
    if |d| > 1 {
      MinimalAtLeast(d[1..], base);
      if |d| == 2 {
        TimesAtLeast(base, 1, d[1]);
        assert Pow(base, 1) == base * Pow(base, 0);
      } else {
        TimesAtLeast(base, Pow(base, |d| - 2), Num(d[1..], base));
      }
    }
  }

  /** A number has one minimal digit sequence. */
  lemma {:induction false} MinimalUnique(a: seq<nat>, b: seq<nat>, base: nat)
    requires Minimal(a, base) && Minimal(b, base) && base > 1 && Num(a, base) == Num(b, base)
    ensures a == b
    decreases |a|
  {
    NumTail(a, base);
    NumTail(b, base);
    DigitsApart(a[0], Num(a[1..], base), b[0], Num(b[1..], base), base);
    if |a| == 1 && |b| == 1 {
    } else if |a| > 1 && |b| > 1 {
      MinimalUnique(a[1..], b[1..], base);
      assert a == [a[0]] + a[1..] && b == [b[0]] + b[1..];
    } else {
      Positive(if |a| > 1 then a[1..] else b[1..], base);
    }
  }

  lemma {:induction false} Positive(d: seq<nat>, base: nat)
    requires Minimal(d, base) && base > 1 && d[|d| - 1] != 0
    ensures Num(d, base) > 0
  {
    MinimalAtLeast(d, base);
  }

  lemma {:induction false} DigitsApart(x: nat, p: nat, y: nat, q: nat, base: nat)
    requires x < base && y < base && x + base * p == y + base * q
    ensures x == y && p == q
  {
    if p < q {
      TimesAtLeast(base, p + 1, q);
    } else if q < p {
      TimesAtLeast(base, q + 1, p);
    }
  }

  // Multiply a number held in a buffer by m and add c, carrying from digit to digit.

  function Div(a: nat, b: nat): (q: nat)
    requires b > 1
    ensures a > 0 ==> q < a
  {
    DivShrinks(a, b);
    a / b
  }

  function Mod(a: nat, b: nat): (r: nat)
    requires b > 1
    ensures r < b
  {
    a % b
  }

  lemma {:induction false} DivShrinks(a: nat, b: nat)
    requires b > 1
    ensures 0 <= a / b && (a > 0 ==> a / b < a)
  {
    QuotientBounds(a / b, b, a % b);
  }

  lemma {:induction false} QuotientBounds(q: int, b: int, r: int)
    requires b > 1 && 0 <= r < b && b * q + r >= 0
    ensures q >= 0 && (b * q + r > 0 ==> q < b * q + r)
  {
    if q <= -1 {
      ProductAtMost(b, q, -1);
    } else if q >= 1 {
      ProductAtMost(q, 2, b);
    }
  }

  lemma ProductAtMost(a: int, x: int, y: int)
    requires a >= 0 && x <= y
    ensures a * x <= a * y
  {
  }

  lemma DivMod(a: nat, b: nat)
    requires b > 1
    ensures a == Mod(a, b) + b * Div(a, b)
  {
  }

  function Carried(c: nat, base: nat): seq<nat>
    requires base > 1
  {
    if c == 0 then [] else [Mod(c, base)] + Carried(Div(c, base), base)
  }

  function Spread(d: seq<nat>, m: nat, c: nat, base: nat): seq<nat>
    requires base > 1
    decreases |d|
  {
    if d == [] then Carried(c, base)
    else [Mod(c + d[0] * m, base)] + Spread(d[1..], m, Div(c + d[0] * m, base), base)
  }

  lemma {:induction false} NumCarried(c: nat, base: nat)
    requires base > 1
    ensures Num(Carried(c, base), base) == c && InBase(Carried(c, base), base)
    ensures c > 0 ==> Minimal(Carried(c, base), base) && Carried(c, base)[|Carried(c, base)| - 1] != 0
  {
    hide Div, Mod;
    if c > 0 {
      NumCarried(Div(c, base), base);
      DivMod(c, base);
      NumTail(Carried(c, base), base);
    }
  }

  lemma {:induction false} NumSpread(d: seq<nat>, m: nat, c: nat, base: nat)
    requires base > 1
    ensures Num(Spread(d, m, c, base), base) == m * Num(d, base) + c
    ensures InBase(Spread(d, m, c, base), base) && |Spread(d, m, c, base)| >= |d|
    decreases |d|
  {
    hide Div, Mod;
    if d == [] {
      NumCarried(c, base);
    } else {
      var t := c + d[0] * m;
      NumSpread(d[1..], m, Div(t, base), base);
      NumTail(Spread(d, m, c, base), base);
      DivMod(t, base);
      Distribute(Mod(t, base), Div(t, base), base, m, Num(d[1..], base), d[0], c);
    }
  }

  lemma {:induction false} Distribute(r: nat, q: nat, base: nat, m: nat, n: nat, d0: nat, c: nat)
    requires r + base * q == c + d0 * m
    ensures r + base * (m * n + q) == m * (d0 + base * n) + c
  {
    assert base * (m * n + q) == base * (m * n) + base * q;
    assert m * (d0 + base * n) == m * d0 + m * (base * n);
    assert base * (m * n) == m * (base * n);
  }

  /** The result has no digit too many if the number had none. */
  lemma {:induction false} SpreadMinimal(d: seq<nat>, m: nat, c: nat, base: nat)
    requires base > 1 && m > 0 && Minimal(d, base)
    ensures Minimal(Spread(d, m, c, base), base)
    decreases |d|
  {
    hide Div, Mod;
    NumSpread(d, m, c, base);
    var q := Div(c + d[0] * m, base);
    NumSpread(d[1..], m, q, base);
    if |d| == 1 {
      assert d[1..] == [];
      NumCarried(q, base);
    } else {
      SpreadMinimal(d[1..], m, q, base);
      Positive(d[1..], base);
      TimesAtLeast(m, 1, Num(d[1..], base));
    }
  }

  /** The digits from place e on are the number divided by that power of the base. */
  lemma {:induction false} NumSplit(d: seq<nat>, e: nat, base: nat)
    requires e <= |d| && InBase(d, base) && base > 1
    ensures Num(d, base) == Num(d[..e], base) + Pow(base, e) * Num(d[e..], base)
    ensures Num(d[..e], base) < Pow(base, e)
    decreases e
  {
    hide Num, Pow;
    if e == 0 {
      assert d[0..] == d && d[..0] == [];
      NumEmpty(base);
    } else {
      NumSplit(d[1..], e - 1, base);
      assert d[..e][1..] == d[1..][..e - 1] && d[e..] == d[1..][e - 1..];
      NumTail(d[..e], base);
      NumTail(d, base);
      PowStep(base, e - 1);
      ShiftedSplit(d[0], base, Num(d[1..][..e - 1], base), Pow(base, e - 1), Num(d[e..], base));
    }
  }

  lemma NumEmpty(base: nat)
    ensures Num([], base) == 0 && Pow(base, 0) == 1
  {
  }

  lemma {:induction false} ShiftedSplit(x: nat, base: nat, low: nat, p: nat, high: nat)
    requires x < base && low < p
    ensures x + base * (low + p * high) == (x + base * low) + (base * p) * high
    ensures x + base * low < base * p
  {
    TimesAtLeast(base, low + 1, p);
    Associate(base, p, high);
  }

  // One turn of a carry loop, what is done so far in front.

  lemma {:induction false} SpreadStep(done: seq<nat>, d: seq<nat>, j: nat, m: nat, c: nat, base: nat)
    requires j < |d| && base > 1
    ensures done + Spread(d[j..], m, c, base)
         == done + [Mod(c + d[j] * m, base)] + Spread(d[j + 1..], m, Div(c + d[j] * m, base), base)
  {
    hide Div, Mod;
    assert d[j..][1..] == d[j + 1..];
  }

  lemma SpreadEnds(d: seq<nat>, m: nat, c: nat, base: nat)
    requires base > 1
    ensures Spread(d[|d|..], m, c, base) == Carried(c, base)
  {
  }

  lemma CarryEnds(done: seq<nat>, base: nat)
    requires base > 1
    ensures done + Carried(0, base) == done
  {
  }

  lemma {:induction false} CarryStep(done: seq<nat>, c: nat, base: nat)
    requires c > 0 && base > 1
    ensures done + Carried(c, base) == done + [Mod(c, base)] + Carried(Div(c, base), base)
  {
    hide Div, Mod;
  }

  // Powers

  lemma {:induction false} PowAdd(b: nat, x: nat, y: nat)
    ensures Pow(b, x + y) == Pow(b, x) * Pow(b, y)
  {
    if x > 0 {
      PowAdd(b, x - 1, y);
      Associate(b, Pow(b, x - 1), Pow(b, y));
    }
  }

  lemma Associate(a: nat, b: nat, c: nat)
    ensures (a * b) * c == a * (b * c)
  {
  }

  lemma {:induction false} PowMul(b: nat, x: nat, y: nat)
    ensures Pow(b, x * y) == Pow(Pow(b, x), y)
  {
    if y == 0 {
      assert x * 0 == 0;
    } else {
      PowMul(b, x, y - 1);
      PowAdd(b, x, x * (y - 1));
      assert x + x * (y - 1) == x * y;
    }
  }

  lemma {:induction false} PowGrows(b: nat, x: nat, y: nat)
    requires b > 1
    ensures x < y ==> Pow(b, x) < Pow(b, y)
    ensures x <= y ==> Pow(b, x) <= Pow(b, y)
    decreases y
  {
    if x < y {
      PowGrows(b, x, y - 1);
      TimesAtLeast(Pow(b, y - 1), 2, b);
    }
  }

  lemma {:induction false} PowOfLarger(a: nat, b: nat, e: nat)
    requires a <= b
    ensures Pow(a, e) <= Pow(b, e)
    ensures a < b && e > 0 ==> Pow(a, e) < Pow(b, e)
  {
    if e > 0 {
      PowOfLarger(a, b, e - 1);
      PowStep(a, e - 1);
      PowStep(b, e - 1);
      hide Pow;
      ProductsApart(a, b, Pow(a, e - 1), Pow(b, e - 1));
    }
  }

  lemma PowStep(b: nat, e: nat)
    ensures Pow(b, e + 1) == b * Pow(b, e)
  {
  }

  lemma {:induction false} ProductsApart(a: nat, b: nat, x: nat, y: nat)
    requires a <= b && x <= y
    ensures a * x <= b * y
    ensures a < b && y > 0 ==> a * x < b * y
  {
    TimesAtLeast(a, x, y);
    TimesAtLeast(y, a, b);
    if a < b {
      TimesAtLeast(y, a + 1, b);
    }
  }
}
