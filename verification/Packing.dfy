/** What the packed-word steps of src/BitIO.cpp do to the plain sequence of bits
    the words stand for. */
module Packing {
  import opened Words

  /** All bits of a run of words, the unused ones of the last word included. */
  function Flat(longs: seq<Long>): (f: seq<bool>)
    ensures |f| == 64 * |longs|
  {
    seq(64 * |longs|, k requires 0 <= k < 64 * |longs| => Pattern(longs[k / 64])[k % 64])
  }

  function Min(a: nat, b: nat): nat {
    if a <= b then a else b
  }

  predicate Fits(value: Long, n: nat) {
    value < Pow2(n)
  }

  /** s with v written over it from p on, growing s when v reaches past its end. */
  function Overwrite(s: seq<bool>, p: nat, v: seq<bool>): (r: seq<bool>)
    requires p <= |s|
    ensures |r| == if p + |v| <= |s| then |s| else p + |v|
    ensures forall k :: 0 <= k < |r| ==> r[k] == if p <= k < p + |v| then v[k - p] else s[k]
  {
    s[..p] + v + if p + |v| <= |s| then s[p + |v|..] else []
  }

  /** s with v inserted at p. */
  function Insert(s: seq<bool>, p: nat, v: seq<bool>): (r: seq<bool>)
    requires p <= |s|
  {
    s[..p] + v + s[p..]
  }

  lemma InsertIs(s: seq<bool>, p: nat, v: seq<bool>)
    requires p <= |s|
    ensures Insert(s, p, v) == s[..p] + v + s[p..]
  {
  }

  // How words sit in the flat run.

  lemma FlatWithin(longs: seq<Long>, i: nat, a: nat, b: nat)
    requires i < |longs| && a <= b <= 64
    ensures Flat(longs)[64 * i + a..64 * i + b] == Pattern(longs[i])[a..b]
  {
  }

  lemma {:induction false} FlatAcross(longs: seq<Long>, i: nat, a: nat, b: nat)
    requires i + 1 < |longs| && a <= 64 && b <= 64
    ensures Flat(longs)[64 * i + a..64 * (i + 1) + b] == Pattern(longs[i])[a..] + Pattern(longs[i + 1])[..b]
  {
    hide Flat, Pattern;
    FlatWithin(longs, i, a, 64);
    FlatWithin(longs, i + 1, 0, b);
    assert 64 * i + 64 == 64 * (i + 1) && 64 * (i + 1) + 0 == 64 * (i + 1);
    Cut(Flat(longs), 64 * i + a, 64 * (i + 1), 64 * (i + 1) + b);
  }

  lemma Cut(s: seq<bool>, a: nat, b: nat, c: nat)
    requires a <= b <= c <= |s|
    ensures s[a..c] == s[a..b] + s[b..c]
  {
  }

  lemma FlatStore(longs: seq<Long>, i: nat, x: Long)
    requires i < |longs|
    ensures Flat(longs[i := x]) == Flat(longs)[..64 * i] + Pattern(x) + Flat(longs)[64 * (i + 1)..]
  {
  }

  lemma {:induction false} FlatGrow(longs: seq<Long>)
    ensures Flat(longs + [0]) == Flat(longs) + Zeros(64)
  {
    ValueOfZeros(64);
    PatternOfValue(Zeros(64));
  }

  /** Reading n bits that lie in one word. */
  lemma {:induction false} FetchOne(longs: seq<Long>, i: nat, at: nat, n: nat)
    requires i < |longs| && 1 <= n && at + n <= 64
    ensures And(Shr(longs[i], 64 - at - n), RightMask(n)) == Value(Flat(longs)[64 * i + at..64 * i + at + n])
  {
    hide Pattern, Bits, Value, Shr, And, RightMask, Flat, Zeros;
    Extract(longs[i], at, n);
    FlatWithin(longs, i, at, at + n);
    ValueOfLowBits(And(Shr(longs[i], 64 - at - n), RightMask(n)), Pattern(longs[i])[at..at + n]);
  }

  /** Reading bits that run c places into the next word. */
  lemma {:induction false} FetchTwo(longs: seq<Long>, i: nat, at: nat, c: nat)
    requires i + 1 < |longs| && at < 64 && 1 <= c && 64 - at + c <= 64
    ensures Or(Shl(And(Shr(longs[i], 0), RightMask(64 - at)), c), Shr(longs[i + 1], 64 - c))
         == Value(Flat(longs)[64 * i + at..64 * (i + 1) + c])
  {
    hide Pattern, Bits, Value, Shr, Shl, And, Or, RightMask, Flat;
    var first := And(Shr(longs[i], 0), RightMask(64 - at));
    var b := Pattern(longs[i])[at..] + Pattern(longs[i + 1])[..c];
    Extract(longs[i], at, 64 - at);
    JoinHalves(first, longs[i + 1], c);
    FlatAcross(longs, i, at, c);
    assert Pattern(first)[c..] == Zeros(at - c) + Pattern(longs[i])[at..];
    ValueOfLowBits(Or(Shl(first, c), Shr(longs[i + 1], 64 - c)), b);
  }

  /** Replacing a stretch of one word overwrites that stretch of the run. */
  lemma {:induction false} FlatStretch(longs: seq<Long>, i: nat, x: Long, at: nat, b: seq<bool>)
    requires i < |longs| && at + |b| <= 64
    requires Pattern(x) == Pattern(longs[i])[..at] + b + Pattern(longs[i])[at + |b|..]
    ensures Flat(longs[i := x]) == Overwrite(Flat(longs), 64 * i + at, b)
  {
    hide Pattern, Flat, Overwrite;
    assert Pattern(longs[i])[0..64] == Pattern(longs[i]);
    FlatStore(longs, i, x);
    FlatWithin(longs, i, 0, 64);
    StretchOverwritten(Flat(longs), 64 * i, at, b);
  }

  /** Laying v over bits [at, at + n) of one word overwrites that stretch of the run. */
  lemma {:induction false} FlatSplice(longs: seq<Long>, i: nat, at: nat, v: Long, b: seq<bool>)
    requires i < |longs| && 1 <= |b| && at + |b| <= 64
    requires Pattern(v) == Zeros(at) + b + Zeros(64 - at - |b|)
    ensures Flat(longs[i := Or(And(longs[i], Not(CenterMask(|b|, 64 - at - |b|))), v)])
         == Overwrite(Flat(longs), 64 * i + at, b)
  {
    hide Pattern, Or, And, Not, CenterMask, Flat, Overwrite;
    assert Pattern(v)[at..at + |b|] == b;
    Splice(longs[i], v, at, |b|);
    FlatStretch(longs, i, Or(And(longs[i], Not(CenterMask(|b|, 64 - at - |b|))), v), at, b);
  }

  /** Overwriting inside one 64-bit stretch touches only that stretch. */
  lemma StretchOverwritten(f: seq<bool>, s: nat, at: nat, b: seq<bool>)
    requires s + 64 <= |f| && at + |b| <= 64
    ensures f[..s] + (f[s..s + 64][..at] + b + f[s..s + 64][at + |b|..]) + f[s + 64..] == Overwrite(f, s + at, b)
  {
  }

  // An n-bit value moved to where its bits belong in a word.

  lemma {:induction false} PlacedOne(v: Long, at: nat, n: nat)
    requires 1 <= n && at + n <= 64 && Fits(v, n)
    ensures Pattern(Shl(v, 64 - at - n)) == Zeros(at) + Bits(v, n) + Zeros(64 - at - n)
  {
    hide Pattern, Bits, Pow2, Shl;
    PatternOfSmall(v, n);
  }

  lemma {:induction false} PlacedHigh(v: Long, c: nat, n: nat)
    requires 1 <= c < n <= 64 && Fits(v, n)
    ensures Pattern(Shr(v, n - c)) == Zeros(64 - c) + Bits(v, n)[..c] + Zeros(0)
  {
    hide Pattern, Bits, Pow2, Shr;
    PatternOfSmall(v, n);
  }

  lemma {:induction false} PlacedLow(v: Long, c: nat, n: nat)
    requires 1 <= c < n <= 64 && Fits(v, n)
    ensures Pattern(Shl(v, 64 - c)) == Zeros(0) + Bits(v, n)[n - c..] + Zeros(64 - c)
  {
    hide Pattern, Bits, Pow2, Shl;
    PatternOfSmall(v, n);
  }

  /** Storing all n bits of v in one word. */
  lemma {:induction false} StoreOne(longs: seq<Long>, i: nat, at: nat, n: nat, v: Long)
    requires i < |longs| && 1 <= n && at + n <= 64 && Fits(v, n)
    ensures Flat(longs[i := Or(And(longs[i], Not(CenterMask(n, 64 - at - n))), Shl(v, 64 - at - n))])
         == Overwrite(Flat(longs), 64 * i + at, Bits(v, n))
  {
    hide Pattern, Bits, Pow2, Flat, Shl, Shr, And, Or, Not, CenterMask, Overwrite;
    PlacedOne(v, at, n);
    FlatSplice(longs, i, at, Shl(v, 64 - at - n), Bits(v, n));
  }

  /** Storing the leading c bits of an n-bit v at the end of a word. */
  lemma {:induction false} StoreHigh(longs: seq<Long>, i: nat, c: nat, n: nat, v: Long)
    requires i < |longs| && 1 <= c < n <= 64 && Fits(v, n)
    ensures Flat(longs[i := Or(And(longs[i], Not(CenterMask(c, 0))), Shr(v, n - c))])
         == Overwrite(Flat(longs), 64 * i + (64 - c), Bits(v, n)[..c])
  {
    hide Pattern, Bits, Pow2, Flat, Shl, Shr, And, Or, Not, CenterMask, Overwrite;
    PlacedHigh(v, c, n);
    FlatSplice(longs, i, 64 - c, Shr(v, n - c), Bits(v, n)[..c]);
  }

  /** Storing the trailing c bits of an n-bit v at the start of a word. */
  lemma {:induction false} StoreLow(longs: seq<Long>, i: nat, c: nat, n: nat, v: Long)
    requires i < |longs| && 1 <= c < n <= 64 && Fits(v, n)
    ensures Flat(longs[i := Or(And(longs[i], Not(CenterMask(c, 64 - c))), Shl(v, 64 - c))])
         == Overwrite(Flat(longs), 64 * i, Bits(v, n)[n - c..])
  {
    hide Pattern, Bits, Pow2, Flat, Shl, Shr, And, Or, Not, CenterMask, Overwrite;
    PlacedLow(v, c, n);
    FlatSplice(longs, i, 0, Shl(v, 64 - c), Bits(v, n)[n - c..]);
  }

  /** Storing a whole word. */
  lemma {:induction false} StoreWhole(longs: seq<Long>, i: nat, v: Long)
    requires i < |longs|
    ensures Flat(longs[i := v]) == Overwrite(Flat(longs), 64 * i, Bits(v, 64))
  {
    FlatStore(longs, i, v);
  }

  lemma OverwriteTwice(f: seq<bool>, p: nat, v: seq<bool>, c: nat, z: seq<bool>)
    requires c <= |v| && p + c <= |f| && p + |v| <= |f| + |z|
    ensures Overwrite(Overwrite(f, p, v[..c]) + z, p + c, v[c..]) == Overwrite(f + z, p, v)
  {
  }

  /** The words a stream of `length` bits needs. */
  function WordsFor(length: nat): nat {
    length / 64 + if length % 64 != 0 then 1 else 0
  }

  /** The words hold s: one word per started 64 bits, unused places clear. */
  ghost predicate Packed(longs: seq<Long>, s: seq<bool>) {
    |longs| == WordsFor(|s|) && Flat(longs) == s + Zeros(64 * |longs| - |s|)
  }

  /** An overwrite of the run, grown by extra clear places, is one of the bits held. */
  lemma Repack(s: seq<bool>, f: seq<bool>, extra: nat, p: nat, v: seq<bool>)
    requires s <= f && p <= |s| && p + |v| <= |f| + extra
    requires f == s + Zeros(|f| - |s|)
    ensures Overwrite(f + Zeros(extra), p, v)
         == Overwrite(s, p, v) + Zeros(|f| + extra - |Overwrite(s, p, v)|)
  {
  }

  /** Words whose flat bits were overwritten hold the content overwritten. */
  lemma {:induction false} StoredPacked(longs: seq<Long>, s: seq<bool>, stored: seq<Long>, p: nat, v: seq<bool>)
    requires Packed(longs, s) && p <= |s| && |v| <= 64
    requires |stored| == |longs| + if p + |v| <= 64 * |longs| then 0 else 1
    requires Flat(stored) == Overwrite(Flat(longs) + Zeros(64 * (|stored| - |longs|)), p, v)
    ensures Packed(stored, Overwrite(s, p, v))
  {
    hide Overwrite, Zeros;
    Repack(s, Flat(longs), 64 * (|stored| - |longs|), p, v);
    hide Flat;
  }

  lemma NoMore(f: seq<bool>)
    ensures f + Zeros(0) == f && f + [] == f
  {
  }

  // src/BitIO.cpp:282-307
  /** The n bits at place p of the packed words, as a number. */
  method Fetch(longs: seq<Long>, p: nat, n: nat) returns (result: Long)
    requires 1 <= n <= 64 && p + n <= 64 * |longs|
    ensures result == Value(Flat(longs)[p..p + n])
  {
    hide Flat, Value, Bits, Pattern, Pow2, Zeros, Shr, Shl, And, Or, RightMask;
    var lI := p / 64;
    var left := 64 - p % 64;
    var capture := Min(left, n);
    var shift := left - capture;
    result := And(Shr(longs[lI], shift), RightMask(capture));
    if capture == n {
      FetchOne(longs, lI, 64 - left, n);
      return;
    }
    lI := lI + 1;
    capture := n - capture;
    FetchTwo(longs, lI - 1, 64 - left, capture);
    result := Shl(result, capture);
    shift := 64 - capture;
    result := Or(result, Shr(longs[lI], shift));
  }

  // src/BitIO.cpp:350-376
  /** The packed words with the n bits of value laid over them from place p,
      one clear word added where the run is too short. */
  method Store(longs: seq<Long>, p: nat, value: Long, n: nat) returns (stored: seq<Long>)
    requires 1 <= n <= 64 && Fits(value, n) && p <= 64 * |longs|
    requires n == 64 && p % 64 == 0 ==> p / 64 < |longs|
    ensures |stored| == |longs| + if p + n <= 64 * |longs| then 0 else 1
    ensures Flat(stored) == Overwrite(Flat(longs) + Zeros(64 * (|stored| - |longs|)), p, Bits(value, n))
  {
    hide Flat, Value, Bits, Pattern, Pow2, Zeros, Overwrite, Shl, Shr, And, Or, Not, CenterMask;
    NoMore(Flat(longs));
    stored := longs;
    var lI := p / 64;
    var left := 64 - p % 64;
    if left == 64 && n == 64 {
      StoreWhole(stored, lI, value);
      stored := stored[lI := value];
      return;
    }

    if |stored| == lI {
      FlatGrow(stored);
      stored := stored + [0];
    }
    var setLength := Min(left, n);
    var mask := Not(CenterMask(setLength, left - setLength));
    var shifted := if setLength == n then Shl(value, left - setLength) else Shr(value, n - setLength);
    if setLength == n {
      StoreOne(stored, lI, 64 - left, n, value);
      stored := stored[lI := Or(And(stored[lI], mask), shifted)];
      return;
    }
    StoreHigh(stored, lI, setLength, n, value);
    stored := stored[lI := Or(And(stored[lI], mask), shifted)];

    lI := lI + 1;
    ghost var more := if |stored| == lI then 64 else 0;
    OverwriteTwice(Flat(longs), p, Bits(value, n), setLength, Zeros(more));
    NoMore(Flat(stored));
    if |stored| == lI {
      FlatGrow(stored);
      stored := stored + [0];
    }
    setLength := n - setLength;
    mask := Not(CenterMask(setLength, 64 - setLength));
    StoreLow(stored, lI, setLength, n, value);
    stored := stored[lI := Or(And(stored[lI], mask), Shl(value, 64 - setLength))];
  }

  // src/BitIO.cpp:502-505, 552-555
  /** The words after `stop` moved n places right, taking in what leaves the word before. */
  method ShiftTail(longs: seq<Long>, stop: nat, n: nat) returns (moved: seq<Long>)
    requires stop < |longs| && 1 <= n < 64
    ensures |moved| == |longs| && forall i :: 0 <= i <= stop ==> moved[i] == longs[i]
    ensures forall k :: 64 * (stop + 1) <= k < 64 * |longs| ==> Flat(moved)[k] == Flat(longs)[k - n]
  {
    moved := longs;
    var lI := |longs| - 1;
    while lI > stop
      invariant stop <= lI < |longs| == |moved|
      invariant forall i :: 0 <= i <= lI ==> moved[i] == longs[i]
      invariant forall i :: lI < i < |longs| ==> moved[i] == Or(Shr(longs[i], n), Shl(longs[i - 1], 64 - n))
    {
      moved := moved[lI := Or(Shr(moved[lI], n), Shl(moved[lI - 1], 64 - n))];
      lI := lI - 1;
    }
    forall k | 64 * (stop + 1) <= k < 64 * |longs|
      ensures Flat(moved)[k] == Flat(longs)[k - n]
    {
      ShiftedBit(longs, moved, k, n);
    }
  }

  lemma {:induction false} ShiftedBit(longs: seq<Long>, moved: seq<Long>, k: nat, n: nat)
    requires |moved| == |longs| && 64 <= k < 64 * |longs| && 1 <= n < 64
    requires moved[k / 64] == Or(Shr(longs[k / 64], n), Shl(longs[k / 64 - 1], 64 - n))
    ensures Flat(moved)[k] == Flat(longs)[k - n]
  {
    hide Flat, Pattern, Or, Shr, Shl;
    var i := k / 64;
    Seam(longs[i - 1], longs[i], n);
    FlatAcross(longs, i - 1, 64 - n, 64 - n);
    FlatWithin(moved, i, 0, 64);
    assert Flat(moved)[k] == Flat(moved)[64 * i..64 * i + 64][k - 64 * i];
    assert Flat(longs)[k - n] == Flat(longs)[64 * i - n..64 * i + 64 - n][k - 64 * i];
  }

  // src/BitIO.cpp:496-498, 539-543
  /** The words from `stop` on moved back by `off` whole words, the last `off` lost. */
  method MoveWords(longs: seq<Long>, stop: nat, off: nat) returns (moved: seq<Long>)
    requires stop + off <= |longs| && 1 <= off
    ensures |moved| == |longs| && forall i :: 0 <= i < stop + off ==> moved[i] == longs[i]
    ensures forall i :: stop + off <= i < |longs| ==> moved[i] == longs[i - off]
  {
    moved := longs;
    var lI := |longs| - 1;
    while lI - off + 1 > stop
      invariant stop + off - 1 <= lI < |longs| == |moved|
      invariant forall i :: 0 <= i <= lI ==> moved[i] == longs[i]
      invariant forall i :: lI < i < |longs| ==> moved[i] == longs[i - off]
    {
      moved := moved[lI := moved[lI - off]];
      lI := lI - 1;
    }
  }

  /** Bits OR-ed into places that are clear overwrite them. */
  lemma {:induction false} FlatMerge(longs: seq<Long>, i: nat, at: nat, v: Long, b: seq<bool>)
    requires i < |longs| && at + |b| <= 64
    requires Pattern(v) == Zeros(at) + b + Zeros(64 - at - |b|)
    requires Flat(longs)[64 * i + at..64 * i + 64] == Zeros(64 - at)
    ensures Flat(longs[i := Or(longs[i], v)]) == Overwrite(Flat(longs), 64 * i + at, b)
  {
    hide Pattern, Or, Flat, Overwrite;
    FlatWithin(longs, i, at, 64);
    MergeClear(longs[i], at, v, b);
    FlatStretch(longs, i, Or(longs[i], v), at, b);
  }

  lemma {:induction false} MergeClear(w: Long, at: nat, v: Long, b: seq<bool>)
    requires at + |b| <= 64 && Pattern(v) == Zeros(at) + b + Zeros(64 - at - |b|)
    requires Pattern(w)[at..64] == Zeros(64 - at)
    ensures Pattern(Or(w, v)) == Pattern(w)[..at] + b + Pattern(w)[at + |b|..]
  {
    hide Pattern, Or;
    assert forall j :: at <= j < 64 ==> Pattern(w)[j] == Pattern(w)[at..64][j - at];
  }

  lemma FlatPush(longs: seq<Long>, w: Long)
    ensures Flat(longs + [w]) == Flat(longs) + Pattern(w)
  {
  }

  lemma OverwriteAtEnd(s: seq<bool>, pad: nat, v: seq<bool>)
    requires |v| <= pad
    ensures Overwrite(s + Zeros(pad), |s|, v) == s + v + Zeros(pad - |v|)
  {
  }

  // Where an appended value goes: a new word, the last word, or both.

  lemma {:induction false} AppendFresh(longs: seq<Long>, s: seq<bool>, value: Long, n: nat)
    requires Packed(longs, s) && |s| % 64 == 0 && 1 <= n <= 64 && Fits(value, n)
    ensures Packed(longs + [Shl(value, 64 - n)], s + Bits(value, n))
  {
    hide Flat, Pattern, Bits, Shl;
    PlacedOne(value, 0, n);
    FlatPush(longs, Shl(value, 64 - n));
  }

  lemma {:induction false} AppendWithin(longs: seq<Long>, s: seq<bool>, value: Long, n: nat)
    requires Packed(longs, s) && |s| % 64 != 0 && 1 <= n <= 64 - |s| % 64 && Fits(value, n)
    ensures Packed(longs[|longs| - 1 := Or(longs[|longs| - 1], Shl(value, 64 - |s| % 64 - n))], s + Bits(value, n))
  {
    hide Flat, Pattern, Bits, Shl, Or, Overwrite;
    var i, at := |longs| - 1, |s| % 64;
    assert Flat(longs)[64 * i + at..64 * i + 64] == Zeros(64 - at);
    PlacedOne(value, at, n);
    FlatMerge(longs, i, at, Shl(value, 64 - at - n), Bits(value, n));
    OverwriteAtEnd(s, 64 - at, Bits(value, n));
  }

  lemma {:induction false} AppendAcross(longs: seq<Long>, s: seq<bool>, value: Long, n: nat)
    requires Packed(longs, s) && |s| % 64 != 0 && 64 - |s| % 64 < n <= 64 && Fits(value, n)
    ensures var left := 64 - |s| % 64;
            Packed(longs[|longs| - 1 := Or(longs[|longs| - 1], Shr(value, n - left))] + [Shl(value, 64 - (n - left))],
                   s + Bits(value, n))
  {
    hide Flat, Pattern, Bits, Shl, Shr, Or, Overwrite;
    var i, at := |longs| - 1, |s| % 64;
    var left, v := 64 - at, Bits(value, n);
    assert Flat(longs)[64 * i + at..64 * i + 64] == Zeros(left);
    PlacedHigh(value, left, n);
    FlatMerge(longs, i, at, Shr(value, n - left), v[..left]);
    OverwriteAtEnd(s, left, v[..left]);
    PlacedLow(value, n - left, n);
    FlatPush(longs[i := Or(longs[i], Shr(value, n - left))], Shl(value, 64 - (n - left)));
    Regroup(s, v[..left], v[left..], 64 - (n - left));
    assert v == v[..left] + v[left..];
  }

  lemma Regroup(s: seq<bool>, a: seq<bool>, b: seq<bool>, pad: nat)
    ensures (s + a + Zeros(0)) + (Zeros(0) + b + Zeros(pad)) == s + (a + b) + Zeros(pad)
  {
  }

  // src/BitIO.cpp:422-447
  /** n bits of value put after the bits s the words hold. */
  method Append(longs: seq<Long>, ghost s: seq<bool>, length: nat, value: Long, n: nat) returns (longer: seq<Long>)
    requires Packed(longs, s) && length == |s| && 1 <= n <= 64 && Fits(value, n)
    ensures Packed(longer, s + Bits(value, n))
  {
    hide Bits, Or, Shl, Shr, Flat;
    var lI := |longs| - 1;
    var left := 64 - length % 64;
    if left == 64 {
      AppendFresh(longs, s, value, n);
      longer := longs + [Shl(value, 64 - n)];
    } else if n <= left {
      AppendWithin(longs, s, value, n);
      longer := longs[lI := Or(longs[lI], Shl(value, left - n))];
    } else {
      AppendAcross(longs, s, value, n);
      longer := longs[lI := Or(longs[lI], Shr(value, n - left))];
      longer := longer + [Shl(value, 64 - (n - left))];
    }
  }

  /** H is F with n places opened at p: what stood at p and after sits n places on. */
  ghost predicate Gap(F: seq<bool>, H: seq<bool>, p: nat, n: nat) {
    && |H| == |F|
    && (forall k :: 0 <= k < p && k < |F| ==> H[k] == F[k])
    && (forall k :: p + n <= k < |F| ==> H[k] == F[k - n])
  }

  lemma BitOfWord(longs: seq<Long>, i: nat, j: nat)
    requires i < |longs| && j < 64
    ensures Flat(longs)[64 * i + j] == Pattern(longs[i])[j]
  {
  }

  /** Bit k under words that moved `off` places. */
  lemma {:induction false} MovedBit(longs: seq<Long>, moved: seq<Long>, k: nat, off: nat)
    requires 64 * off <= k < 64 * |longs| && |moved| == |longs| && moved[k / 64] == longs[k / 64 - off]
    ensures Flat(moved)[k] == Flat(longs)[k - 64 * off]
  {
    hide Flat, Pattern;
    BitOfWord(moved, k / 64, k % 64);
    BitOfWord(longs, k / 64 - off, k % 64);
  }

  // src/BitIO.cpp:493-519
  /** n places gapped at p, inside the words. */
  method OpenGap(longs: seq<Long>, p: nat, n: nat) returns (gapped: seq<Long>)
    requires 1 <= n <= 64 && p + n <= 64 * |longs|
    ensures |gapped| == |longs| && Gap(Flat(longs), Flat(gapped), p, n)
  {
    hide Flat, Pattern, KeepLeft, MovedRight, Or;
    var lIEnd := p / 64;
    if n == 64 {
      gapped := MoveWords(longs, lIEnd, 1);
      WholeWordGap(longs, gapped, p);
    } else {
      var shifted := ShiftTail(longs, lIEnd, n);
      var bI := p % 64;
      gapped := shifted[lIEnd := Or(KeepLeft(shifted[lIEnd], bI), MovedRight(shifted[lIEnd], bI, n))];
      SplitWordGap(longs, shifted, gapped, p, n);
    }
  }

  lemma {:induction false} WholeWordGap(longs: seq<Long>, gapped: seq<Long>, p: nat)
    requires p + 64 <= 64 * |longs| && |gapped| == |longs|
    requires forall i :: 0 <= i < p / 64 + 1 ==> gapped[i] == longs[i]
    requires forall i :: p / 64 + 1 <= i < |longs| ==> gapped[i] == longs[i - 1]
    ensures Gap(Flat(longs), Flat(gapped), p, 64)
  {
    hide Flat, Pattern;
    forall k | 0 <= k < p
      ensures Flat(gapped)[k] == Flat(longs)[k]
    {
      MovedBit(longs, gapped, k, 0);
    }
    forall k | p + 64 <= k < 64 * |longs|
      ensures Flat(gapped)[k] == Flat(longs)[k - 64]
    {
      MovedBit(longs, gapped, k, 1);
    }
  }

  lemma {:induction false} SplitWordGap(longs: seq<Long>, shifted: seq<Long>, gapped: seq<Long>, p: nat, n: nat)
    requires 1 <= n < 64 && p + n <= 64 * |longs| && |gapped| == |shifted| == |longs|
    requires forall i :: 0 <= i <= p / 64 ==> shifted[i] == longs[i]
    requires forall k :: 64 * (p / 64 + 1) <= k < 64 * |longs| ==> Flat(shifted)[k] == Flat(longs)[k - n]
    requires gapped == shifted[p / 64 := Or(KeepLeft(longs[p / 64], p % 64), MovedRight(longs[p / 64], p % 64, n))]
    ensures Gap(Flat(longs), Flat(gapped), p, n)
  {
    hide Flat, Pattern, KeepLeft, MovedRight, Or, Zeros;
    forall k | 0 <= k < 64 * |longs| && (k < p || p + n <= k)
      ensures Flat(gapped)[k] == Flat(longs)[if k < p then k else k - n]
    {
      if k / 64 > p / 64 {
        MovedBit(shifted, gapped, k, 0);
      } else if k / 64 < p / 64 {
        MovedBit(longs, gapped, k, 0);
      } else {
        SplitBit(longs, gapped, p, n, k);
      }
    }
  }

  lemma {:induction false} SplitBit(longs: seq<Long>, gapped: seq<Long>, p: nat, n: nat, k: nat)
    requires 1 <= n < 64 && p / 64 == k / 64 < |longs| == |gapped| && (k < p || p + n <= k)
    requires gapped[p / 64] == Or(KeepLeft(longs[p / 64], p % 64), MovedRight(longs[p / 64], p % 64, n))
    ensures Flat(gapped)[k] == Flat(longs)[if k < p then k else k - n]
  {
    hide Flat, Pattern, KeepLeft, MovedRight, Or, Zeros;
    Opened(longs[p / 64], p % 64, n);
    BitOfWord(gapped, k / 64, k % 64);
    BitOfWord(longs, k / 64, if k < p then k % 64 else k % 64 - n);
  }

  // src/BitIO.cpp:536-572
  /** m places opened at p: whole words first, then the leftover. */
  method OpenWideGap(longs: seq<Long>, p: nat, m: nat) returns (gapped: seq<Long>)
    requires p + m <= 64 * |longs|
    ensures |gapped| == |longs| && Gap(Flat(longs), Flat(gapped), p, m)
  {
    hide Flat, Pattern, KeepLeft, MovedRight, Or;
    var lIEnd := p / 64;
    var offset := m / 64;
    gapped := longs;
    if offset > 0 {
      gapped := MoveWords(longs, lIEnd, offset);
      lIEnd := lIEnd + offset;
    }
    ghost var words := gapped;
    if m % 64 != 0 {
      var n := m % 64;
      gapped := ShiftTail(gapped, lIEnd, n);
      ghost var shifted := gapped;
      var bI := p % 64;
      if offset == 0 {
        gapped := gapped[lIEnd := Or(KeepLeft(gapped[lIEnd], bI), MovedRight(gapped[lIEnd], bI, n))];
        SplitWordGap(longs, shifted, gapped, p, n);
      } else {
        gapped := gapped[lIEnd - offset := KeepLeft(gapped[lIEnd], bI)];
        gapped := gapped[lIEnd := MovedRight(gapped[lIEnd], bI, n)];
        WideGap(longs, words, shifted, gapped, p, offset, n);
      }
    } else {
      forall k | 0 <= k < 64 * |longs| && (k < p || p + m <= k)
        ensures Flat(gapped)[k] == Flat(longs)[if k < p then k else k - m]
      {
        MovedBit(longs, gapped, k, if k < p then 0 else offset);
      }
    }
  }

  lemma {:induction false} WideGap(longs: seq<Long>, words: seq<Long>, shifted: seq<Long>, gapped: seq<Long>, p: nat,
                                   off: nat, n: nat)
    requires 1 <= n < 64 && 1 <= off && p + 64 * off + n <= 64 * |longs|
    requires |gapped| == |shifted| == |words| == |longs|
    requires forall i :: 0 <= i < p / 64 + off ==> words[i] == longs[i]
    requires forall i :: p / 64 + off <= i < |longs| ==> words[i] == longs[i - off]
    requires forall i :: 0 <= i <= p / 64 + off ==> shifted[i] == words[i]
    requires forall k :: 64 * (p / 64 + off + 1) <= k < 64 * |longs| ==> Flat(shifted)[k] == Flat(words)[k - n]
    requires gapped == shifted[p / 64 := KeepLeft(longs[p / 64], p % 64)]
                              [p / 64 + off := MovedRight(longs[p / 64], p % 64, n)]
    ensures Gap(Flat(longs), Flat(gapped), p, 64 * off + n)
  {
    hide Flat, Pattern, KeepLeft, MovedRight, Zeros;
    forall k | 0 <= k < p
      ensures Flat(gapped)[k] == Flat(longs)[k]
    {
      WideGapBefore(longs, gapped, p, k);
    }
    forall k | p + 64 * off + n <= k < 64 * |longs|
      ensures Flat(gapped)[k] == Flat(longs)[k - (64 * off + n)]
    {
      if k / 64 > p / 64 + off {
        MovedBit(shifted, gapped, k, 0);
        MovedBit(longs, words, k - n, off);
      } else {
        WideGapSplit(longs, gapped, p, off, n, k);
      }
    }
  }

  lemma {:induction false} WideGapBefore(longs: seq<Long>, gapped: seq<Long>, p: nat, k: nat)
    requires k < p < 64 * |longs| && |gapped| == |longs|
    requires forall i :: 0 <= i < p / 64 ==> gapped[i] == longs[i]
    requires gapped[p / 64] == KeepLeft(longs[p / 64], p % 64)
    ensures Flat(gapped)[k] == Flat(longs)[k]
  {
    hide Flat, Pattern, KeepLeft;
    if k / 64 < p / 64 {
      MovedBit(longs, gapped, k, 0);
    } else {
      BitOfWord(gapped, p / 64, k % 64);
      BitOfWord(longs, p / 64, k % 64);
    }
  }

  lemma {:induction false} WideGapSplit(longs: seq<Long>, gapped: seq<Long>, p: nat, off: nat, n: nat, k: nat)
    requires 1 <= n < 64 && p + 64 * off + n <= k < 64 * |longs| && |gapped| == |longs|
    requires k / 64 <= p / 64 + off < |longs|
    requires gapped[p / 64 + off] == MovedRight(longs[p / 64], p % 64, n)
    ensures Flat(gapped)[k] == Flat(longs)[k - (64 * off + n)]
  {
    hide Flat, Pattern, MovedRight;
    SplitPlaces(p / 64, p % 64, off, n, k);
    BitOfWord(gapped, p / 64 + off, k % 64);
    BitOfWord(longs, p / 64, k % 64 - n);
  }

  lemma SplitPlaces(w: nat, at: nat, off: nat, n: nat, k: nat)
    requires at < 64 && 1 <= n < 64 && 64 * w + at + 64 * off + n <= k && k / 64 <= w + off
    ensures k == 64 * (w + off) + k % 64 && k % 64 >= at + n && k - (64 * off + n) == 64 * w + (k % 64 - n)
  {
  }

  /** Bits held before and after a gap of n places was opened among them. */
  lemma {:induction false} GapHeld(s: seq<bool>, pad: nat, H: seq<bool>, p: nat, n: nat, v: seq<bool>)
    requires p <= |s| && n <= pad && |v| == n
    requires Gap(s + Zeros(pad), H, p, n)
    ensures H == H[..|s| + n] + Zeros(pad - n)
    ensures Overwrite(H[..|s| + n], p, v) == Insert(s, p, v)
  {
    var f := s + Zeros(pad);
    assert forall k :: |s| + n <= k < |H| ==> H[k] == f[k - n];
  }

  // src/BitIO.cpp:110-113
  /** Enough clear words added to hold `length` bits. */
  function Resized(longs: seq<Long>, length: nat): (r: seq<Long>)
    requires |longs| <= WordsFor(length)
  {
    longs + seq(WordsFor(length) - |longs|, _ => 0)
  }

  lemma {:induction false} ResizedFlat(longs: seq<Long>, length: nat)
    requires |longs| <= WordsFor(length)
    ensures Flat(Resized(longs, length)) == Flat(longs) + Zeros(64 * (WordsFor(length) - |longs|))
  {
    ValueOfZeros(64);
    PatternOfValue(Zeros(64));
  }

  lemma ZerosJoin(s: seq<bool>, pad: nat, more: nat, count: nat)
    requires count <= pad + more
    ensures s + Zeros(pad) + Zeros(more) == s + Zeros(count) + Zeros(pad + more - count)
  {
  }

  lemma OverwriteNext(base: seq<bool>, p: nat, v: seq<bool>, from: nat, to: nat)
    requires from <= to <= |v| && p + |v| <= |base|
    ensures Overwrite(Overwrite(base, p, v[..from]), p + from, v[from..to]) == Overwrite(base, p, v[..to])
  {
  }

  lemma OverwriteGrown(s: seq<bool>, p: nat, v: seq<bool>)
    requires p <= |s|
    ensures v[..|v|] == v && v[..0] == []
    ensures Overwrite(s, p, []) == s
    ensures |s| < p + |v| ==> Overwrite(s + Zeros(p + |v| - |s|), p, v) == Overwrite(s, p, v)
  {
  }

  /** There is a word under every place of the bits held. */
  lemma RoomFor(longs: seq<Long>, s: seq<bool>, p: nat, n: nat)
    requires Packed(longs, s) && 1 <= n && p + n <= |s|
    ensures p / 64 < |longs|
  {
  }

  lemma PackedRoom(longs: seq<Long>, s: seq<bool>)
    requires Packed(longs, s)
    ensures |s| <= 64 * |longs|
  {
  }

  /** `count` bits from place `from` of an endless run of fill words. */
  function FillBits(fills: nat -> Long, from: nat, count: nat): (b: seq<bool>)
    ensures |b| == count
  {
    seq(count, j requires 0 <= j < count => Pattern(fills((from + j) / 64))[(from + j) % 64])
  }

  lemma FillBitsInWord(fills: nat -> Long, i: nat, at: nat, c: nat)
    requires at + c <= 64
    ensures FillBits(fills, 64 * i + at, c) == Pattern(fills(i))[at..at + c]
  {
  }

  lemma FillBitsJoin(fills: nat -> Long, from: nat, a: nat, b: nat)
    ensures FillBits(fills, from, a) + FillBits(fills, from + a, b) == FillBits(fills, from, a + b)
  {
  }

  /** Clear places of one word taking their share of the fill. */
  lemma {:induction false} FillWord(longs: seq<Long>, s: seq<bool>, pad: nat, fills: nat -> Long, v: Long, c: nat)
    requires Flat(longs) == s + Zeros(pad) && 1 <= c <= pad && |s| % 64 + c <= 64
    requires Pattern(v) == Zeros(|s| % 64) + Pattern(fills(|s| / 64))[|s| % 64..|s| % 64 + c] + Zeros(64 - |s| % 64 - c)
    ensures |s| / 64 < |longs|
    ensures Flat(longs[|s| / 64 := Or(longs[|s| / 64], v)]) == s + FillBits(fills, |s|, c) + Zeros(pad - c)
    ensures |s| % 64 == 0 ==> Flat(longs[|s| / 64 := v]) == s + FillBits(fills, |s|, c) + Zeros(pad - c)
  {
    hide Flat, Pattern, Or, Overwrite, FillBits;
    var i, at := |s| / 64, |s| % 64;
    var b := FillBits(fills, |s|, c);
    FillBitsInWord(fills, i, at, c);
    assert Flat(longs)[64 * i + at..64 * i + 64] == Zeros(64 - at);
    FlatMerge(longs, i, at, v, b);
    OverwriteAtEnd(s, pad, b);
    if at == 0 {
      FlatWithin(longs, i, 0, 64);
      FlatStretch(longs, i, v, at, b);
    }
  }

  /** The first n places of a fill word. */
  lemma {:induction false} MaskedLeft(w: Long, n: nat)
    requires 1 <= n < 64
    ensures Pattern(And(LeftMask(n), w)) == Zeros(0) + Pattern(w)[0..0 + n] + Zeros(64 - 0 - n)
  {
    hide Pattern, And, LeftMask;
  }

  /** The next word of fill behind what is held so far: a whole one, or its first places. */
  method FillNext(longs: seq<Long>, ghost held: seq<bool>, ghost pad: nat, lI: nat, needed: nat, fills: nat -> Long)
    returns (filled: seq<Long>)
    requires Flat(longs) == held + Zeros(pad) && 64 * lI == |held| && lI < |longs|
    requires 1 <= needed <= pad
    ensures |filled| == |longs|
    ensures var c := Min(needed, 64);
            Flat(filled) == held + FillBits(fills, |held|, c) + Zeros(pad - c)
  {
    hide Flat, Pattern, Or, And, FillBits, LeftMask;
    if needed >= 64 {
      assert Pattern(fills(lI))[0..64] == Pattern(fills(lI));
      FillWord(longs, held, pad, fills, fills(lI), 64);
      filled := longs[lI := fills(lI)];
    } else {
      MaskedLeft(fills(lI), needed);
      FillWord(longs, held, pad, fills, And(LeftMask(needed), fills(lI)), needed);
      filled := longs[lI := And(LeftMask(needed), fills(lI))];
    }
  }

  // src/BitIO.cpp:606-630
  /** `extra` clear places after the bits s filled from the fill words. */
  method Fill(longs: seq<Long>, ghost s: seq<bool>, length: nat, extra: nat, fills: nat -> Long)
    returns (filled: seq<Long>)
    requires length == |s| && 1 <= extra && |s| + extra <= 64 * |longs|
    requires Flat(longs) == s + Zeros(64 * |longs| - |s|)
    ensures |filled| == |longs|
    ensures Flat(filled) == s + FillBits(fills, |s|, extra) + Zeros(64 * |longs| - |s| - extra)
  {
    hide Flat, Pattern, Or, And, FillBits, CenterMask, LeftMask;
    var position := length;
    var lI := position / 64;
    var bitsLeftInLong := 64 - position % 64;
    var needed := extra;
    var bitsToChange := Min(needed, bitsLeftInLong);
    var v := And(CenterMask(bitsToChange, bitsLeftInLong - bitsToChange), fills(lI));
    FillWord(longs, s, 64 * |longs| - |s|, fills, v, bitsToChange);
    filled := longs[lI := Or(longs[lI], v)];
    needed := needed - bitsToChange;

    while needed > 0
      invariant 0 <= needed < extra && |filled| == |longs|
      invariant Flat(filled) == s + FillBits(fills, |s|, extra - needed) + Zeros(64 * |longs| - |s| - (extra - needed))
      invariant needed > 0 ==> 64 * (lI + 1) == |s| + extra - needed
    {
      lI := lI + 1;
      ghost var held, c := s + FillBits(fills, |s|, extra - needed), Min(needed, 64);
      FillBitsJoin(fills, |s|, extra - needed, c);
      assert held + FillBits(fills, |held|, c) == s + FillBits(fills, |s|, extra - needed + c);
      filled := FillNext(filled, held, 64 * |longs| - |held|, lI, needed, fills);
      needed := needed - Min(needed, 64);
    }
  }
}
