/** Taking the best k of a list under a strict order: what sorting and cutting a
    vector gives, whatever order it came in, and what one more entry changes. */
module Ranking {
  ghost predicate Strict<T(!new)>(less: (T, T) -> bool) {
    && (forall x, y :: less(x, y) ==> !less(y, x))
    && (forall x, y, z :: less(x, y) && less(y, z) ==> less(x, z))
  }

  /** Any two entries are ordered, so no two are the same. */
  ghost predicate Comparable<T>(s: seq<T>, less: (T, T) -> bool) {
    forall i, j :: 0 <= i < j < |s| ==> less(s[i], s[j]) || less(s[j], s[i])
  }

  ghost predicate Ordered<T>(s: seq<T>, less: (T, T) -> bool) {
    forall i, j :: 0 <= i < j < |s| ==> less(s[i], s[j])
  }

  function Place<T>(x: T, r: seq<T>, less: (T, T) -> bool): (p: seq<T>)
    ensures |p| == |r| + 1
    ensures multiset(p) == multiset{x} + multiset(r)
  {
    if r == [] || less(x, r[0]) then [x] + r
    else
      assert r == [r[0]] + r[1..];
      [r[0]] + Place(x, r[1..], less)
  }

  function Sorted<T>(s: seq<T>, less: (T, T) -> bool): (r: seq<T>)
    ensures |r| == |s|
    ensures multiset(r) == multiset(s)
  {
    if s == [] then []
    else
      assert s == [s[0]] + s[1..];
      Place(s[0], Sorted(s[1..], less), less)
  }

  function Take<T>(s: seq<T>, k: nat): (t: seq<T>)
    ensures |t| == if k <= |s| then k else |s|
  {
    if k <= |s| then s[..k] else s
  }

  /** Placing puts x after everything before it and before everything after it. */
  lemma {:induction false} PlacePosition<T(!new)>(x: T, r: seq<T>, less: (T, T) -> bool) returns (p: nat)
    requires Strict(less) && Ordered(r, less)
    requires forall i :: 0 <= i < |r| ==> less(x, r[i]) || less(r[i], x)
    ensures p <= |r| && Place(x, r, less) == r[..p] + [x] + r[p..]
    ensures Ordered(Place(x, r, less), less)
  {
    if r == [] || less(x, r[0]) {
      p := 0;
    } else {
      var q := PlacePosition(x, r[1..], less);
      p := q + 1;
      assert r[..p] == [r[0]] + r[1..][..q] && r[p..] == r[1..][q..];
    }
  }

  lemma {:induction false} SortedOrdered<T(!new)>(s: seq<T>, less: (T, T) -> bool)
    requires Strict(less) && Comparable(s, less)
    ensures Ordered(Sorted(s, less), less)
  {
    if s != [] {
      var rest := Sorted(s[1..], less);
      SortedOrdered(s[1..], less);
      forall i | 0 <= i < |rest|
        ensures less(s[0], rest[i]) || less(rest[i], s[0])
      {
        assert rest[i] in multiset(rest);
        var j :| 0 <= j < |s[1..]| && s[1..][j] == rest[i];
        assert s[j + 1] == rest[i];
      }
      var p := PlacePosition(s[0], rest, less);
    }
  }

  /** There is one way to put entries in order. */
  lemma {:induction false} OrderedUnique<T(!new)>(a: seq<T>, b: seq<T>, less: (T, T) -> bool)
    requires Strict(less) && Ordered(a, less) && Ordered(b, less) && multiset(a) == multiset(b)
    ensures a == b
  {
    assert |multiset(a)| == |a| && |multiset(b)| == |b|;
    if a != [] {
      SameHead(a, b, less);
      assert a == [a[0]] + a[1..] && b == [b[0]] + b[1..];
      assert multiset(a[1..]) == multiset(a) - multiset{a[0]};
      assert multiset(b[1..]) == multiset(b) - multiset{b[0]};
      OrderedTail(a, less);
      OrderedTail(b, less);
      hide Strict, Ordered;
      OrderedUnique(a[1..], b[1..], less);
    }
  }

  lemma OrderedTail<T(!new)>(a: seq<T>, less: (T, T) -> bool)
    requires a != [] && Ordered(a, less)
    ensures Ordered(a[1..], less)
  {
  }

  lemma {:induction false} SameHead<T(!new)>(a: seq<T>, b: seq<T>, less: (T, T) -> bool)
    requires Strict(less) && Ordered(a, less) && Ordered(b, less) && multiset(a) == multiset(b)
    requires a != [] && b != []
    ensures a[0] == b[0]
  {
    assert a[0] in multiset(b) && b[0] in multiset(a);
    var j :| 0 <= j < |b| && b[j] == a[0];
    var i :| 0 <= i < |a| && a[i] == b[0];
  }

  /** The same entries in another order sort the same. */
  lemma {:induction false} SortIgnoresOrder<T(!new)>(a: seq<T>, b: seq<T>, less: (T, T) -> bool)
    requires Strict(less) && Comparable(a, less) && Comparable(b, less) && multiset(a) == multiset(b)
    ensures Sorted(a, less) == Sorted(b, less)
  {
    SortedOrdered(a, less);
    SortedOrdered(b, less);
    OrderedUnique(Sorted(a, less), Sorted(b, less), less);
  }

  function Removed<T>(s: seq<T>, i: nat): seq<T>
    requires i < |s|
  {
    s[..i] + s[i + 1..]
  }

  lemma {:induction false} RemovedMultiset<T>(s: seq<T>, i: nat)
    requires i < |s|
    ensures multiset(s) == multiset(Removed(s, i)) + multiset{s[i]}
  {
    assert s == s[..i] + [s[i]] + s[i + 1..];
  }

  /** x stands somewhere among the k, and at most the last of them made room for it. */
  ghost predicate OneEnters<T>(best: seq<T>, best': seq<T>, x: T, k: nat) {
    exists p :: 0 <= p <= |best| && p < k && best' == Take(best[..p] + [x] + best[p..], k)
  }

  /** One more entry either changes nothing among the best k, or stands among them and
      pushes out at most the last. */
  lemma {:induction false} OneMore<T(!new)>(x: T, a: seq<T>, b: seq<T>, k: nat, less: (T, T) -> bool)
    requires Strict(less) && Comparable(a, less) && Comparable(b, less)
    requires multiset(b) == multiset(a) + multiset{x}
    ensures var best, best' := Take(Sorted(a, less), k), Take(Sorted(b, less), k);
            best' == best || OneEnters(best, best', x, k)
  {
    var r := Sorted(a, less);
    SortedOrdered(a, less);
    SortedOrdered(b, less);
    Compared(x, a, b, r, less);
    var p := PlacePosition(x, r, less);
    hide Strict, Comparable, Ordered, Sorted, Place;
    OrderedUnique(Sorted(b, less), Place(x, r, less), less);
    InsertThenTake(r, x, p, k);
  }

  lemma {:induction false} Compared<T(!new)>(x: T, a: seq<T>, b: seq<T>, r: seq<T>, less: (T, T) -> bool)
    requires Comparable(b, less) && multiset(b) == multiset(a) + multiset{x} && multiset(r) == multiset(a)
    ensures forall i :: 0 <= i < |r| ==> less(x, r[i]) || less(r[i], x)
  {
    hide Comparable;
    forall i | 0 <= i < |r|
      ensures less(x, r[i]) || less(r[i], x)
    {
      assert r[i] in multiset(r);
      assert multiset{x, r[i]} == multiset{r[i]} + multiset{x};
      Both(b, x, r[i], less);
    }
  }

  lemma InsertThenTake<T>(r: seq<T>, x: T, p: nat, k: nat)
    requires p <= |r|
    ensures p >= k ==> Take(r[..p] + [x] + r[p..], k) == Take(r, k)
    ensures p < k ==> p <= |Take(r, k)|
                      && Take(r[..p] + [x] + r[p..], k) == Take(Take(r, k)[..p] + [x] + Take(r, k)[p..], k)
  {
  }

  /** Two entries of a list, or one that is there twice. */
  lemma {:induction false} Both<T(!new)>(s: seq<T>, x: T, y: T, less: (T, T) -> bool)
    requires Comparable(s, less) && multiset{x, y} <= multiset(s)
    ensures less(x, y) || less(y, x)
  {
    if x == y {
      assert multiset{x, y}[x] == 2;
      assert multiset(s)[x] >= 2;
      var i, j := TwoPlaces(s, x);
      assert less(s[i], s[j]);
    } else {
      assert multiset{x, y}[x] >= 1 && multiset{x, y}[y] >= 1;
      assert x in multiset(s) && y in multiset(s);
      var i :| 0 <= i < |s| && s[i] == x;
      var j :| 0 <= j < |s| && s[j] == y;
    }
  }

  lemma {:induction false} TwoPlaces<T>(s: seq<T>, x: T) returns (i: nat, j: nat)
    requires multiset(s)[x] >= 2
    ensures i < j < |s| && s[i] == x && s[j] == x
  {
    var a :| 0 <= a < |s| && s[a] == x;
    RemovedMultiset(s, a);
    assert x in multiset(Removed(s, a));
    var b :| 0 <= b < |s| - 1 && Removed(s, a)[b] == x;
    if b < a {
      i, j := b, a;
    } else {
      i, j := a, b + 1;
    }
  }

  lemma {:induction false} SubComparable<T(!new)>(s: seq<T>, t: seq<T>, less: (T, T) -> bool)
    requires Comparable(s, less) && multiset(t) <= multiset(s)
    ensures Comparable(t, less)
  {
    forall i, j | 0 <= i < j < |t|
      ensures less(t[i], t[j]) || less(t[j], t[i])
    {
      TwoOf(t, i, j);
      hide Comparable;
      Both(s, t[i], t[j], less);
    }
  }

  lemma {:induction false} TwoOf<T>(t: seq<T>, i: nat, j: nat)
    requires i < j < |t|
    ensures multiset{t[i], t[j]} <= multiset(t)
  {
    assert t == t[..i] + [t[i]] + t[i + 1..j] + [t[j]] + t[j + 1..];
    assert multiset{t[i], t[j]} == multiset([t[i]]) + multiset([t[j]]);
  }

  function Mapped<S, T>(s: seq<S>, f: S -> T): (m: seq<T>)
    ensures |m| == |s|
  {
    if s == [] then [] else Mapped(s[..|s| - 1], f) + [f(s[|s| - 1])]
  }

  function OneIf<T>(x: T, keep: T -> bool): (k: seq<T>)
    ensures |k| <= 1
  {
    if keep(x) then [x] else []
  }

  function Kept<T>(s: seq<T>, keep: T -> bool): (k: seq<T>)
    ensures |k| <= |s|
  {
    if s == [] then []
    else Kept(s[..|s| - 1], keep) + OneIf(s[|s| - 1], keep)
  }

  /** Where the last entry of b stands in a. */
  lemma {:induction false} Without<T>(a: seq<T>, b: seq<T>) returns (i: nat)
    requires multiset(a) == multiset(b) && b != []
    ensures i < |a| && a[i] == b[|b| - 1]
    ensures multiset(Removed(a, i)) == multiset(Removed(b, |b| - 1))
  {
    hide Removed;
    var x := b[|b| - 1];
    assert x in multiset(a);
    i :| 0 <= i < |a| && a[i] == x;
    RemovedMultiset(a, i);
    RemovedMultiset(b, |b| - 1);
    assert multiset(Removed(a, i)) == multiset(a) - multiset{x};
    assert multiset(Removed(b, |b| - 1)) == multiset(b) - multiset{x};
  }

  lemma {:induction false} MappedAt<S, T>(s: seq<S>, f: S -> T, i: nat)
    requires i < |s|
    ensures Mapped(s, f)[i] == f(s[i])
  {
    if i < |s| - 1 {
      MappedAt(s[..|s| - 1], f, i);
    }
  }

  lemma RemovedFront<T>(s: seq<T>, i: nat)
    requires i < |s| - 1
    ensures Removed(s, i) == Removed(s[..|s| - 1], i) + [s[|s| - 1]]
  {
  }

  lemma {:induction false} MappedStep<S, T>(s: seq<S>, x: S, f: S -> T)
    ensures Mapped(s + [x], f) == Mapped(s, f) + [f(x)]
  {
    assert (s + [x])[..|s|] == s;
  }

  lemma {:induction false} MappedRemoved<S, T>(s: seq<S>, i: nat, f: S -> T)
    requires i < |s|
    ensures multiset(Mapped(s, f)) == multiset(Mapped(Removed(s, i), f)) + multiset{f(s[i])}
  {
    hide Mapped;
    var front, x := s[..|s| - 1], s[|s| - 1];
    assert s == front + [x];
    MappedStep(front, x, f);
    if i == |front| {
      assert Removed(s, i) == front;
    } else {
      MappedRemoved(front, i, f);
      RemovedFront(s, i);
      MappedStep(Removed(front, i), x, f);
    }
  }

  lemma {:induction false} KeptStep<T>(s: seq<T>, x: T, keep: T -> bool)
    ensures Kept(s + [x], keep) == Kept(s, keep) + OneIf(x, keep)
  {
    assert (s + [x])[..|s|] == s;
  }

  lemma {:induction false} KeptRemoved<T>(s: seq<T>, i: nat, keep: T -> bool)
    requires i < |s|
    ensures multiset(Kept(s, keep)) == multiset(Kept(Removed(s, i), keep)) + multiset(OneIf(s[i], keep))
  {
    hide OneIf, Kept;
    var front, x := s[..|s| - 1], s[|s| - 1];
    assert s == front + [x];
    KeptStep(front, x, keep);
    if i == |front| {
      assert Removed(s, i) == front;
    } else {
      KeptRemoved(front, i, keep);
      RemovedFront(s, i);
      KeptStep(Removed(front, i), x, keep);
    }
  }

  lemma {:induction false} MappedMultiset<S, T>(a: seq<S>, b: seq<S>, f: S -> T)
    requires multiset(a) == multiset(b)
    ensures multiset(Mapped(a, f)) == multiset(Mapped(b, f))
    decreases |b|
  {
    assert |multiset(a)| == |a| && |multiset(b)| == |b|;
    if b != [] {
      var i := Without(a, b);
      hide Mapped;
      MappedMultiset(Removed(a, i), Removed(b, |b| - 1), f);
      MappedRemoved(a, i, f);
      MappedRemoved(b, |b| - 1, f);
    }
  }

  lemma {:induction false} KeptMultiset<T>(a: seq<T>, b: seq<T>, keep: T -> bool)
    requires multiset(a) == multiset(b)
    ensures multiset(Kept(a, keep)) == multiset(Kept(b, keep))
    decreases |b|
  {
    assert |multiset(a)| == |a| && |multiset(b)| == |b|;
    if b != [] {
      var i := Without(a, b);
      hide Kept;
      KeptMultiset(Removed(a, i), Removed(b, |b| - 1), keep);
      KeptRemoved(a, i, keep);
      KeptRemoved(b, |b| - 1, keep);
    }
  }

  /** One entry more before the mapping is one entry more after it. */
  lemma {:induction false} MappedOneMore<S, T>(a: seq<S>, b: seq<S>, x: S, f: S -> T)
    requires multiset(b) == multiset(a) + multiset{x}
    ensures multiset(Mapped(b, f)) == multiset(Mapped(a, f)) + multiset{f(x)}
  {
    assert multiset(a + [x]) == multiset(b);
    MappedMultiset(a + [x], b, f);
    assert (a + [x])[..|a|] == a;
  }

  lemma {:induction false} KeptOneMore<T>(a: seq<T>, b: seq<T>, x: T, keep: T -> bool)
    requires multiset(b) == multiset(a) + multiset{x}
    ensures multiset(Kept(b, keep)) == multiset(Kept(a, keep)) + multiset(OneIf(x, keep))
  {
    assert multiset(a + [x]) == multiset(b);
    KeptMultiset(a + [x], b, keep);
    assert (a + [x])[..|a|] == a;
  }

  /** What is kept is what passes. */
  lemma {:induction false} KeptPass<T>(s: seq<T>, keep: T -> bool, x: T)
    ensures x in Kept(s, keep) <==> x in s && keep(x)
  {
    if s != [] {
      KeptPass(s[..|s| - 1], keep, x);
      assert s == s[..|s| - 1] + [s[|s| - 1]];
    }
  }

  lemma {:induction false} KeptIsPart<T>(s: seq<T>, keep: T -> bool)
    ensures multiset(Kept(s, keep)) <= multiset(s)
  {
    if s != [] {
      KeptIsPart(s[..|s| - 1], keep);
      assert s == s[..|s| - 1] + [s[|s| - 1]];
    }
  }

  lemma {:induction false} TakeIsPart<T>(s: seq<T>, k: nat)
    ensures multiset(Take(s, k)) <= multiset(s)
  {
    assert s == Take(s, k) + s[|Take(s, k)|..];
  }

  lemma {:induction false} MappedPart<S, T>(a: seq<S>, b: seq<S>, f: S -> T)
    requires multiset(a) <= multiset(b)
    ensures multiset(Mapped(a, f)) <= multiset(Mapped(b, f))
    decreases |b| - |a|
  {
    hide Mapped;
    if multiset(a) == multiset(b) {
      MappedMultiset(a, b, f);
    } else {
      var more := multiset(b) - multiset(a);
      assert multiset(b) == multiset(a) + more;
      var x :| x in more;
      assert multiset(b) == multiset(a + [x]) + (more - multiset{x});
      assert |multiset(b)| == |multiset(a + [x])| + |more - multiset{x}|;
      MappedPart(a + [x], b, f);
      MappedStep(a, x, f);
    }
  }

  lemma InTake<T>(r: seq<T>, k: nat, j: nat)
    requires j < |r|
    ensures r[j] in Take(r, k) || j >= |Take(r, k)|
  {
  }

  /** Everyone left out comes after everyone chosen. */
  lemma {:induction false} ChosenFirst<T(!new)>(s: seq<T>, k: nat, less: (T, T) -> bool, chosen: T, other: T)
    requires Strict(less) && Comparable(s, less)
    requires chosen in Take(Sorted(s, less), k) && other in s && other !in Take(Sorted(s, less), k)
    ensures less(chosen, other)
  {
    SortedOrdered(s, less);
    hide Strict, Comparable, Sorted;
    var r := Sorted(s, less);
    assert other in multiset(r);
    var i :| 0 <= i < |Take(r, k)| && Take(r, k)[i] == chosen;
    var j :| 0 <= j < |r| && r[j] == other;
    InTake(r, k, j);
  }

  /** The best k - 1 of a list are among its best k after one entry joins. */
  lemma {:induction false} CoreStays<T(!new)>(x: T, a: seq<T>, b: seq<T>, k: nat, less: (T, T) -> bool)
    requires Strict(less) && Comparable(b, less) && multiset(b) == multiset(a) + multiset{x} && k > 0
    ensures multiset(Take(Sorted(a, less), k - 1)) <= multiset(Take(Sorted(b, less), k))
  {
    SubComparable(b, a, less);
    OneMore(x, a, b, k, less);
    var r := Sorted(a, less);
    var best, best' := Take(r, k), Take(Sorted(b, less), k);
    hide Strict, Comparable, Sorted;
    assert Take(r, k - 1) == Take(best, k - 1);
    hide Take;
    CoreInserted(best, best', x, k);
  }

  lemma {:induction false} CoreInserted<T>(best: seq<T>, best': seq<T>, x: T, k: nat)
    requires k > 0 && |best| <= k && (best' == best || OneEnters(best, best', x, k))
    ensures multiset(Take(best, k - 1)) <= multiset(best')
  {
    if best' == best {
      TakeIsPart(best, k - 1);
    } else {
      var p :| 0 <= p <= |best| && p < k && best' == Take(best[..p] + [x] + best[p..], k);
      CoreSplit(best, x, p, k);
      var core := Take(best, k - 1);
      hide Take;
      assert core == core[..p] + core[p..];
      Between(core[..p], x, core[p..]);
    }
  }

  lemma Between<T>(a: seq<T>, x: T, b: seq<T>)
    ensures multiset(a + b) <= multiset(a + [x] + b)
  {
  }

  lemma {:induction false} CoreSplit<T>(best: seq<T>, x: T, p: nat, k: nat)
    requires p <= |best| <= k && p < k
    ensures var core := Take(best, k - 1);
            p <= |core| && Take(best[..p] + [x] + best[p..], k) == core[..p] + [x] + core[p..]
  {
    var core, grown := Take(best, k - 1), best[..p] + [x] + best[p..];
    assert core[..p] == best[..p];
    if |best| == k {
      assert best[p..] == core[p..] + [best[k - 1]];
      assert grown == (core[..p] + [x] + core[p..]) + [best[k - 1]];
      assert grown[..k] == core[..p] + [x] + core[p..];
    } else {
      assert core == best;
    }
  }

  /** Swapping one entry for another changes at most one of the best k. */
  lemma {:induction false} OneForAnother<S(!new), T>(rest: seq<S>, x: S, y: S, a: seq<S>, b: seq<S>, k: nat,
                                           less: (S, S) -> bool, f: S -> T)
    requires Strict(less) && Comparable(a, less) && Comparable(b, less)
    requires multiset(a) == multiset(rest) + multiset{x} && multiset(b) == multiset(rest) + multiset{y}
    ensures var before, after := Mapped(Take(Sorted(a, less), k), f), Mapped(Take(Sorted(b, less), k), f);
            AtMostOneMoves(before, after)
  {
    hide Sorted, Mapped, Strict, Comparable;
    assert |multiset(a)| == |multiset(b)|;
    if k > 0 {
      var core := Take(Sorted(rest, less), k - 1);
      CoreStays(x, rest, a, k, less);
      CoreStays(y, rest, b, k, less);
      MappedPart(core, Take(Sorted(a, less), k), f);
      MappedPart(core, Take(Sorted(b, less), k), f);
      CommonCore(Mapped(core, f), Mapped(Take(Sorted(a, less), k), f), Mapped(Take(Sorted(b, less), k), f));
    }
  }

  ghost predicate AtMostOneMoves<T>(before: seq<T>, after: seq<T>) {
    |multiset(before) - multiset(after)| <= 1 && |multiset(after) - multiset(before)| <= 1
  }

  lemma {:induction false} CommonCore<T>(core: seq<T>, a: seq<T>, b: seq<T>)
    requires multiset(core) <= multiset(a) && multiset(core) <= multiset(b)
    requires |a| <= |core| + 1 && |b| <= |core| + 1
    ensures AtMostOneMoves(a, b)
  {
    var c, ma, mb := multiset(core), multiset(a), multiset(b);
    assert c <= ma * mb;
    assert ma * mb == c + (ma * mb - c);
    assert |ma * mb| >= |c|;
    assert ma == ma * mb + (ma - mb);
    assert mb == ma * mb + (mb - ma);
  }

  lemma {:induction false} MappedConcat<S, T>(a: seq<S>, b: seq<S>, f: S -> T)
    ensures Mapped(a + b, f) == Mapped(a, f) + Mapped(b, f)
  {
    if b == [] {
      assert a + b == a;
    } else {
      MappedConcat(a, b[..|b| - 1], f);
      assert (a + b)[..|a + b| - 1] == a + b[..|b| - 1];
    }
  }

  lemma {:induction false} MappedTake<S, T>(s: seq<S>, k: nat, f: S -> T)
    ensures Mapped(Take(s, k), f) == Take(Mapped(s, f), k)
  {
    var t := Take(s, k);
    assert s == t + s[|t|..];
    MappedConcat(t, s[|t|..], f);
  }

  lemma {:induction false} MappedEnters<S, T>(best: seq<S>, best': seq<S>, x: S, k: nat, f: S -> T)
    requires OneEnters(best, best', x, k)
    ensures OneEnters(Mapped(best, f), Mapped(best', f), f(x), k)
  {
    var p :| 0 <= p <= |best| && p < k && best' == Take(best[..p] + [x] + best[p..], k);
    hide Take;
    MappedTake(best[..p] + [x] + best[p..], k, f);
    MappedSpliced(best, x, p, f);
  }

  lemma {:induction false} MappedSpliced<S, T>(s: seq<S>, x: S, p: nat, f: S -> T)
    requires p <= |s|
    ensures Mapped(s[..p] + [x] + s[p..], f) == Mapped(s, f)[..p] + [f(x)] + Mapped(s, f)[p..]
  {
    assert s == s[..p] + s[p..];
    hide Mapped;
    MappedConcat(s[..p], s[p..], f);
    MappedConcat(s[..p] + [x], s[p..], f);
    MappedStep(s[..p], x, f);
  }

  /** After x entered, the rest are some of those from before. */
  lemma {:induction false} EnteredRest<T>(best: seq<T>, best': seq<T>, x: T, k: nat)
    requires OneEnters(best, best', x, k)
    ensures x in best' && multiset(best') <= multiset(best) + multiset{x}
  {
    var p :| 0 <= p <= |best| && p < k && best' == Take(best[..p] + [x] + best[p..], k);
    var all := best[..p] + [x] + best[p..];
    assert all[p] == x;
    assert best == best[..p] + best[p..];
    TakeIsPart(all, k);
    assert best'[p] == x;
  }

  /** Giving a full set of the best k a newcomer leaves out its last; otherwise the
      newcomer is simply one more. */
  lemma {:induction false} FullOrNot<T>(best: seq<T>, best': seq<T>, x: T, k: nat)
    requires OneEnters(best, best', x, k) && |best| <= k
    ensures if |best| < k then multiset(best') == multiset(best) + multiset{x}
            else multiset(best') == multiset(best[..k - 1]) + multiset{x}
  {
    var p :| 0 <= p <= |best| && p < k && best' == Take(best[..p] + [x] + best[p..], k);
    if |best| < k {
      assert best' == best[..p] + [x] + best[p..];
      Spliced(best, x, p);
    } else {
      CoreSplit(best, x, p, k);
      Spliced(best[..k - 1], x, p);
    }
  }

  lemma {:induction false} Spliced<T>(s: seq<T>, x: T, p: nat)
    requires p <= |s|
    ensures multiset(s[..p] + [x] + s[p..]) == multiset(s) + multiset{x}
  {
    assert s == s[..p] + s[p..];
  }
}
