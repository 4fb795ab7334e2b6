/** Decimal text: what std::to_string writes, what stoull and stoll read, and what a
    text with a decimal point denotes. */
module Decimal {
  import opened Results
  import opened Radix

  predicate IsDigit(c: char) {
    '0' <= c <= '9'
  }

  predicate AllDigits(s: string) {
    forall i :: 0 <= i < |s| ==> IsDigit(s[i])
  }

  function DigitValue(c: char): (d: nat)
    requires IsDigit(c)
    ensures d < 10
  {
    c as nat - '0' as nat
  }

  function Value(s: string): nat
    requires AllDigits(s)
  {
    if s == [] then 0 else Value(s[..|s| - 1]) * 10 + DigitValue(s[|s| - 1])
  }

  function DigitText(d: nat): (c: char)
    requires d < 10
    ensures IsDigit(c) && DigitValue(c) == d
  {
    ('0' as nat + d) as char
  }

  /** The shortest text of a number. */
  function Text(n: nat): (s: string)
    ensures s != [] && AllDigits(s) && Value(s) == n
    ensures n < 10 ==> |s| == 1
  {
    if n < 10 then
      assert Value([DigitText(n)]) == n;
      [DigitText(n)]
    else
      var front := Text(n / 10);
      ValueStep(front, DigitText(n % 10));
      front + [DigitText(n % 10)]
  }

  function Zeros(n: nat): (s: string)
    ensures |s| == n && AllDigits(s)
    ensures forall i :: 0 <= i < n ==> s[i] == '0'
  {
    seq(n, _ => '0')
  }

  lemma {:induction false} ValueStep(s: string, c: char)
    requires AllDigits(s) && IsDigit(c)
    ensures AllDigits(s + [c]) && Value(s + [c]) == Value(s) * 10 + DigitValue(c)
  {
    assert (s + [c])[..|s|] == s;
  }

  lemma {:induction false} ValueConcat(a: string, b: string)
    requires AllDigits(a) && AllDigits(b)
    ensures AllDigits(a + b) && Value(a + b) == Value(a) * Pow(10, |b|) + Value(b)
  {
    if b == [] {
      assert a + b == a;
    } else {
      var front, last := b[..|b| - 1], b[|b| - 1];
      ValueConcat(a, front);
      assert a + b == (a + front) + [last] && b == front + [last];
      hide Value;
      ValueStep(a + front, last);
      ValueStep(front, last);
      Shifted(Value(a), Pow(10, |front|), Value(front), DigitValue(last));
    }
  }

  lemma Shifted(a: nat, p: nat, b: nat, d: nat)
    ensures (a * p + b) * 10 + d == a * (10 * p) + (b * 10 + d)
  {
  }

  lemma {:induction false} ValueOfZeros(n: nat)
    ensures Value(Zeros(n)) == 0
  {
    if n > 0 {
      ValueOfZeros(n - 1);
      assert Zeros(n)[..n - 1] == Zeros(n - 1);
    }
  }

  lemma {:induction false} ValuePadFront(k: nat, s: string)
    requires AllDigits(s)
    ensures AllDigits(Zeros(k) + s) && Value(Zeros(k) + s) == Value(s)
  {
    hide Value, Pow;
    ValueOfZeros(k);
    ValueConcat(Zeros(k), s);
  }

  lemma {:induction false} ValuePadBack(s: string, k: nat)
    requires AllDigits(s)
    ensures AllDigits(s + Zeros(k)) && Value(s + Zeros(k)) == Value(s) * Pow(10, k)
  {
    hide Value, Pow;
    ValueOfZeros(k);
    ValueConcat(s, Zeros(k));
  }

  lemma {:induction false} ValueBelow(s: string)
    requires AllDigits(s)
    ensures Value(s) < Pow(10, |s|)
  {
    if s != [] {
      ValueBelow(s[..|s| - 1]);
    }
  }

  /** A number below 10^k has at most k digits. */
  lemma {:induction false} TextFits(n: nat, k: nat)
    requires n < Pow(10, k) && k > 0
    ensures |Text(n)| <= k
  {
    if n >= 10 && k > 1 {
      TenthBelow(n, Pow(10, k - 1));
      TextFits(n / 10, k - 1);
    }
  }

  lemma TenthBelow(n: nat, p: nat)
    requires n < 10 * p
    ensures n / 10 < p
  {
  }

  /** Text(n) padded with zeros in front to at least k digits, as %0*d writes it. */
  function Padded(n: nat, k: nat): (s: string)
    ensures |s| >= k && |s| > 0 && AllDigits(s) && Value(s) == n
  {
    var t := Text(n);
    if |t| >= k then t
    else
      ValuePadFront(k - |t|, t);
      Zeros(k - |t|) + t
  }

  lemma {:induction false} PaddedExact(n: nat, k: nat)
    requires n < Pow(10, k) && k > 0
    ensures |Padded(n, k)| == k
  {
    TextFits(n, k);
  }

  /** stoull and stoll on a text of digits: out of range from limit on. */
  function Bounded(s: string, limit: nat): Result<nat>
    requires AllDigits(s)
  {
    if Value(s) < limit then Ok(Value(s)) else Err
  }

  // Texts with a point.

  /** Where c first stands, |s| if nowhere. */
  function Find(s: string, c: char): (i: nat)
    ensures i <= |s| && c !in s[..i] && (i < |s| ==> s[i] == c)
  {
    if s == [] || s[0] == c then 0
    else
      var j := Find(s[1..], c);
      assert s[..j + 1] == [s[0]] + s[1..][..j];
      j + 1
  }

  function Whole(s: string): string {
    s[..Find(s, '.')]
  }

  function Fraction(s: string): string {
    if Find(s, '.') < |s| then s[Find(s, '.') + 1..] else ""
  }

  predicate Unsigned(s: string) {
    AllDigits(Whole(s)) && AllDigits(Fraction(s))
  }

  /** The text is an unsigned decimal whose value is n / 10^d. */
  ghost predicate Denotes(s: string, n: nat, d: nat) {
    Unsigned(s) && n * Pow(10, |Fraction(s)|) == Value(Whole(s) + Fraction(s)) * Pow(10, d)
  }

  lemma {:induction false} FindAt(w: string, rest: string, c: char)
    requires c !in w
    ensures Find(w + [c] + rest, c) == |w|
  {
    var s := w + [c] + rest;
    if w != [] {
      FindAt(w[1..], rest, c);
      assert s[1..] == w[1..] + [c] + rest;
      assert s[0] == w[0];
    } else {
      assert s[0] == c;
    }
  }

  lemma {:induction false} Parts(w: string, f: string)
    requires AllDigits(w)
    ensures Whole(w + "." + f) == w && Fraction(w + "." + f) == f
  {
    assert '.' !in w;
    FindAt(w, f, '.');
    var s := w + "." + f;
    assert w + ['.'] + f == s;
    hide Find;
    assert s[..|w|] == w;
    assert s[|w| + 1..] == f;
  }

  function Before(s: string, c: char): (b: string)
    ensures |b| <= |s|
  {
    s[..Find(s, c)]
  }

  function After(s: string, c: char): (a: string)
    ensures |a| <= |s| && (c in s ==> |a| < |s|)
  {
    if Find(s, c) < |s| then s[Find(s, c) + 1..] else ""
  }

  lemma {:induction false} Cut(w: string, rest: string, c: char)
    requires c !in w
    ensures Before(w + [c] + rest, c) == w && After(w + [c] + rest, c) == rest && c in w + [c] + rest
  {
    FindAt(w, rest, c);
    hide Find;
    var s := w + [c] + rest;
    assert s[|w|] == c;
  }

  lemma {:induction false} CutNone(s: string, c: char)
    requires c !in s
    ensures Before(s, c) == s && After(s, c) == ""
  {
    hide Find;
    assert forall k :: 0 <= k < |s| ==> s[k] in s;
    assert s[..|s|] == s;
  }
}
