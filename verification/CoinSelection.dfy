/** Which coins pay for an asset transfer: selectAssetInputs in src/AssetWallet.cpp. */
module CoinSelection {
  /** What a coin holds of one asset; an asset whose rules no transfer can satisfy, or
      that has expired, may not be moved. */
  datatype Holding = Holding(assetIndex: nat, count: nat, movable: bool)

  datatype Coin = Coin(id: nat, assets: seq<Holding>)

  datatype Selection = Selected(coins: seq<Coin>) | NotEnough | Refused

  function CountOf(assets: seq<Holding>, index: nat): nat {
    if assets == [] then 0
    else CountOf(assets[..|assets| - 1], index)
         + if assets[|assets| - 1].assetIndex == index then assets[|assets| - 1].count else 0
  }

  function Count(c: Coin, index: nat): nat {
    CountOf(c.assets, index)
  }

  predicate Pure(c: Coin) {
    |c.assets| == 1
  }

  function Total(coins: seq<Coin>, index: nat): nat {
    if coins == [] then 0 else Total(coins[..|coins| - 1], index) + Count(coins[|coins| - 1], index)
  }

  /** Where the asset first stands in a coin, |assets| if it does not. */
  function FirstOf(assets: seq<Holding>, index: nat): (i: nat)
    ensures i <= |assets| && (i < |assets| ==> assets[i].assetIndex == index)
    ensures forall k :: 0 <= k < i ==> assets[k].assetIndex != index
  {
    if assets == [] || assets[0].assetIndex == index then 0 else 1 + FirstOf(assets[1..], index)
  }

  predicate Holds(c: Coin, index: nat) {
    FirstOf(c.assets, index) < |c.assets|
  }

  predicate Stuck(c: Coin, index: nat) {
    Holds(c, index) && !c.assets[FirstOf(c.assets, index)].movable
  }

  function Candidates(wallet: seq<Coin>, index: nat): seq<Coin> {
    if wallet == [] then []
    else
      Candidates(wallet[..|wallet| - 1], index)
      + if Holds(wallet[|wallet| - 1], index) then [wallet[|wallet| - 1]] else []
  }

  /** Coins with nothing else first, then the larger amount first. */
  predicate Before(a: Coin, b: Coin, index: nat) {
    if Pure(a) != Pure(b) then Pure(a) else Count(a, index) > Count(b, index)
  }

  /** What std::sort promises: nothing stands in front of what should come before it. */
  ghost predicate InOrder(s: seq<Coin>, index: nat) {
    forall i, j :: 0 <= i < j < |s| ==> !Before(s[j], s[i], index)
  }

  method SortCoins(coins: seq<Coin>, index: nat) returns (s: seq<Coin>)
    ensures multiset(s) == multiset(coins) && InOrder(s, index)
  {
    hide CountOf;
    s := [];
    for i := 0 to |coins|
      invariant multiset(s) == multiset(coins[..i]) && InOrder(s, index)
    {
      assert coins[..i + 1] == coins[..i] + [coins[i]];
      s := Insert(s, coins[i], index);
    }
    assert coins[..|coins|] == coins;
  }

  method Insert(s: seq<Coin>, c: Coin, index: nat) returns (r: seq<Coin>)
    requires InOrder(s, index)
    ensures multiset(r) == multiset(s) + multiset{c} && InOrder(r, index)
  {
    hide CountOf;
    var k := |s|;
    while k > 0 && Before(c, s[k - 1], index)
      invariant 0 <= k <= |s|
      invariant forall j :: k <= j < |s| ==> Before(c, s[j], index)
    {
      k := k - 1;
    }
    Inserted(s, c, k, index);
    hide InOrder, Before;
    SplicedIn(s, c, k);
    r := s[..k] + [c] + s[k..];
  }

  lemma {:induction false} SplicedIn(s: seq<Coin>, c: Coin, k: nat)
    requires k <= |s|
    ensures multiset(s[..k] + [c] + s[k..]) == multiset(s) + multiset{c}
  {
    assert s == s[..k] + s[k..];
  }

  lemma {:induction false} Inserted(s: seq<Coin>, c: Coin, k: nat, index: nat)
    requires k <= |s| && InOrder(s, index)
    requires forall j :: k <= j < |s| ==> Before(c, s[j], index)
    requires k > 0 ==> !Before(c, s[k - 1], index)
    ensures InOrder(s[..k] + [c] + s[k..], index)
  {
    hide CountOf;
    var r := s[..k] + [c] + s[k..];
    forall i, j | 0 <= i < j < |r|
      ensures !Before(r[j], r[i], index)
    {
      if j == k {
        assert r[i] == s[i];
        assert !Before(s[k - 1], s[i], index) || i == k - 1;
      } else if i == k {
        assert r[j] == s[j - 1];
      }
    }
  }

  /** What a coin holds of an asset: nothing counts but the holdings of that index. */
  lemma {:induction false} CountAdds(front: seq<Holding>, h: Holding, back: seq<Holding>, index: nat)
    ensures CountOf(front + [h] + back, index)
            == CountOf(front + back, index) + if h.assetIndex == index then h.count else 0
    ensures CountOf([], index) == 0
  {
    if back == [] {
      assert front + [h] + back == front + [h] && front + back == front;
    } else {
      CountAdds(front, h, back[..|back| - 1], index);
      assert (front + [h] + back)[..|front| + |back|] == front + [h] + back[..|back| - 1];
      assert (front + back)[..|front| + |back| - 1] == front + back[..|back| - 1];
    }
  }

  /** The candidates are the wallet's coins, in their order, that hold the asset at all. */
  lemma {:induction false} CandidatesAre(before: seq<Coin>, c: Coin, index: nat)
    ensures Candidates(before + [c], index) == Candidates(before, index)
              + (if exists i :: 0 <= i < |c.assets| && c.assets[i].assetIndex == index then [c] else [])
    ensures Candidates([], index) == []
    ensures Stuck(c, index) <==>
            exists i :: && 0 <= i < |c.assets| && c.assets[i].assetIndex == index && !c.assets[i].movable
                        && forall k :: 0 <= k < i ==> c.assets[k].assetIndex != index
  {
    assert (before + [c])[..|before|] == before;
    hide FirstOf;
    var i := FirstOf(c.assets, index);
    assert i < |c.assets| ==> c.assets[i].assetIndex == index;
  }

  // The best single coin.

  /** A coin that could pay alone without dragging other assets along. */
  predicate Alone(c: Coin, index: nat, amount: nat) {
    |c.assets| == 1 && Count(c, index) >= amount
  }

  /** One coin that pays alone and leaves the least change of all that could. */
  ghost predicate LeastChange(chosen: Coin, candidates: seq<Coin>, index: nat, amount: nat) {
    && chosen in candidates && Alone(chosen, index, amount)
    && forall c :: c in candidates && Alone(c, index, amount) ==> Count(chosen, index) <= Count(c, index)
  }

  /** The first of those coins. */
  ghost predicate FirstLeast(chosen: Coin, candidates: seq<Coin>, index: nat, amount: nat) {
    exists i :: && 0 <= i < |candidates| && candidates[i] == chosen
                && forall k :: 0 <= k < i && Alone(candidates[k], index, amount) ==>
                                 Count(candidates[k], index) > Count(chosen, index)
  }

  method BestSingle(candidates: seq<Coin>, index: nat, amount: nat) returns (found: bool, single: Coin)
    ensures found ==> LeastChange(single, candidates, index, amount) && FirstLeast(single, candidates, index, amount)
    ensures !found ==> forall c :: c in candidates ==> !Alone(c, index, amount)
  {
    hide CountOf;
    found, single := false, Coin(0, []);
    for i := 0 to |candidates|
      invariant found ==> LeastChange(single, candidates[..i], index, amount)
      invariant found ==> FirstLeast(single, candidates, index, amount) && Count(single, index) > amount
      invariant !found ==> forall c :: c in candidates[..i] ==> !Alone(c, index, amount)
    {
      var utxo := candidates[i];
      assert candidates[..i + 1] == candidates[..i] + [utxo];
      if Pure(utxo) {
        var have := Count(utxo, index);
        if have == amount {
          return true, utxo;
        }
        if have >= amount && (!found || have < Count(single, index)) {
          found, single := true, utxo;
        }
      }
    }
    assert candidates[..|candidates|] == candidates;
  }

  // Gathering.

  method Gather(candidates: seq<Coin>, index: nat, amount: nat) returns (selected: seq<Coin>, total: nat)
    ensures selected <= candidates && total == Total(selected, index)
    ensures total < amount ==> selected == candidates
    ensures selected != [] ==> Total(selected[..|selected| - 1], index) < amount
  {
    hide CountOf;
    selected, total := [], 0;
    for i := 0 to |candidates|
      invariant selected == candidates[..i] && total == Total(selected, index)
      invariant selected != [] ==> Total(selected[..|selected| - 1], index) < amount
    {
      if total >= amount {
        break;
      }
      assert candidates[..i + 1] == candidates[..i] + [candidates[i]];
      assert candidates[..i + 1][..i] == candidates[..i];
      selected := selected + [candidates[i]];
      total := total + Count(candidates[i], index);
    }
  }

  lemma {:induction false} TotalStep(s: seq<Coin>, c: Coin, index: nat)
    ensures Total(s + [c], index) == Total(s, index) + Count(c, index)
  {
    assert (s + [c])[..|s|] == s;
  }

  lemma {:induction false} TotalConcat(a: seq<Coin>, b: seq<Coin>, index: nat)
    ensures Total(a + b, index) == Total(a, index) + Total(b, index)
  {
    hide CountOf;
    if b == [] {
      assert a + b == a;
    } else {
      var front, last := b[..|b| - 1], b[|b| - 1];
      TotalConcat(a, front, index);
      assert a + b == (a + front) + [last] && b == front + [last];
      hide Total;
      TotalStep(a + front, last, index);
      TotalStep(front, last, index);
    }
  }

  lemma {:induction false} TotalWithout(s: seq<Coin>, i: nat, index: nat)
    requires i < |s|
    ensures Total(s, index) == Total(s[..i] + s[i + 1..], index) + Count(s[i], index)
  {
    hide Total, CountOf;
    assert s == (s[..i] + [s[i]]) + s[i + 1..];
    TotalConcat(s[..i] + [s[i]], s[i + 1..], index);
    TotalStep(s[..i], s[i], index);
    TotalConcat(s[..i], s[i + 1..], index);
  }

  lemma {:induction false} SameTotal(a: seq<Coin>, b: seq<Coin>, index: nat)
    requires multiset(a) == multiset(b)
    ensures Total(a, index) == Total(b, index)
    decreases |b|
  {
    hide CountOf;
    assert |multiset(a)| == |a| && |multiset(b)| == |b|;
    if b != [] {
      var last := b[|b| - 1];
      assert last in multiset(a);
      var i :| 0 <= i < |a| && a[i] == last;
      hide Total;
      SameRest(a, b, i);
      SameTotal(a[..i] + a[i + 1..], b[..|b| - 1], index);
      TotalWithout(a, i, index);
      assert b == b[..|b| - 1] + [last];
      TotalStep(b[..|b| - 1], last, index);
    }
  }

  lemma {:induction false} SameRest(a: seq<Coin>, b: seq<Coin>, i: nat)
    requires multiset(a) == multiset(b) && b != [] && i < |a| && a[i] == b[|b| - 1]
    ensures multiset(a[..i] + a[i + 1..]) == multiset(b[..|b| - 1])
  {
    Dropped(a, i);
    assert b == b[..|b| - 1] + [a[i]];
    assert multiset(a[..i] + a[i + 1..]) == multiset(a) - multiset{a[i]};
    assert multiset(b[..|b| - 1]) == multiset(b) - multiset{a[i]};
  }

  lemma {:induction false} Dropped(s: seq<Coin>, i: nat)
    requires i < |s|
    ensures multiset(s) == multiset(s[..i] + s[i + 1..]) + multiset{s[i]}
  {
    assert s == s[..i] + [s[i]] + s[i + 1..];
  }

  /** Largest first, no k coins hold more than the first k. */
  lemma {:induction false} FirstHoldMost(s: seq<Coin>, t: seq<Coin>, k: nat, index: nat)
    requires multiset(t) <= multiset(s) && |t| <= k <= |s|
    requires forall i, j :: 0 <= i < j < |s| ==> Count(s[i], index) >= Count(s[j], index)
    ensures Total(t, index) <= Total(s[..k], index)
    decreases k
  {
    hide CountOf;
    if t != [] {
      var x := s[0];
      var i := if x in t then Where(t, x) else 0;
      var y := t[i];
      var rest := t[..i] + t[i + 1..];
      OneLess(s, t, i);
      FirstHoldMost(s[1..], rest, k - 1, index);
      hide Total;
      assert y in multiset(t) && y in multiset(s);
      assert Count(y, index) <= Count(x, index);
      hide Count;
      TotalWithout(t, i, index);
      TotalOfFirst(s, k, index);
    }
  }

  lemma {:induction false} TotalOfFirst(s: seq<Coin>, k: nat, index: nat)
    requires 0 < k <= |s|
    ensures Total(s[..k], index) == Count(s[0], index) + Total(s[1..][..k - 1], index)
  {
    TotalOfNone(index);
    hide Total, CountOf;
    var x := s[0];
    TotalConcat([x], s[1..][..k - 1], index);
    assert [x] + s[1..][..k - 1] == s[..k];
    assert [] + [x] == [x];
    TotalStep([], x, index);
  }

  lemma TotalOfNone(index: nat)
    ensures Total([], index) == 0
  {
  }

  function Where(t: seq<Coin>, x: Coin): (i: nat)
    requires x in t
    ensures i < |t| && t[i] == x
  {
    if t[0] == x then 0 else 1 + Where(t[1..], x)
  }

  /** Taking s[0] out of t where it is there, or anything where it is not. */
  lemma {:induction false} OneLess(s: seq<Coin>, t: seq<Coin>, i: nat)
    requires multiset(t) <= multiset(s) && i < |t| && (t[i] == s[0] || s[0] !in t)
    requires s != []
    ensures multiset(t[..i] + t[i + 1..]) <= multiset(s[1..])
  {
    Dropped(t, i);
    assert s == [s[0]] + s[1..];
    var rest := multiset(t[..i] + t[i + 1..]);
    assert rest == multiset(t) - multiset{t[i]};
    assert multiset(s[1..]) == multiset(s) - multiset{s[0]};
    if s[0] !in t {
      assert s[0] !in multiset(t);
    }
  }

  /** The coins that hold nothing else, or the ones that do. */
  function Only(coins: seq<Coin>, pure: bool): seq<Coin> {
    if coins == [] then []
    else
      var c := coins[|coins| - 1];
      Only(coins[..|coins| - 1], pure) + if (|c.assets| == 1) == pure then [c] else []
  }

  /** A coin with other assets is taken only on top of all the pure ones, where those are
      too little; and no pure coins, and no coins on top of all pure ones, would do in
      smaller number. */
  ghost predicate PureFirst(coins: seq<Coin>, candidates: seq<Coin>, index: nat, amount: nat) {
    var pure := Only(candidates, true);
    && (Only(coins, false) == [] || (multiset(pure) <= multiset(coins) && Total(pure, index) < amount))
    && forall other ::
         && multiset(other) <= multiset(candidates) && Total(other, index) >= amount
         && (Only(other, false) == [] || multiset(pure) <= multiset(other)) ==>
           |coins| <= |other|
  }

  /** What a selection owes its caller: coins of the wallet that hold the asset, enough of
      it; a single coin when a pure one is enough by itself, the one leaving least change;
      otherwise pure coins before any others, and the fewest. */
  ghost predicate Good(coins: seq<Coin>, candidates: seq<Coin>, index: nat, amount: nat) {
    && multiset(coins) <= multiset(candidates) && Total(coins, index) >= amount
    && (forall c :: c in candidates && |c.assets| == 1 && Count(c, index) >= amount ==>
          |coins| == 1 && |coins[0].assets| == 1 && amount <= Count(coins[0], index) <= Count(c, index))
    && (amount > 0 ==> PureFirst(coins, candidates, index, amount))
  }

  // src/AssetWallet.cpp:91-149
  /** Refused when a candidate may not be moved, NotEnough exactly when all candidates
      together fall short, and otherwise a good selection. */
  method SelectAssetInputs(wallet: seq<Coin>, index: nat, amount: nat) returns (r: Selection)
    ensures r.Refused? <==> exists c :: c in wallet && Stuck(c, index)
    ensures !r.Refused? ==> (r.NotEnough? <==> Total(Candidates(wallet, index), index) < amount)
    ensures r.Selected? ==> Good(r.coins, Candidates(wallet, index), index, amount)
  {
    hide Stuck, Candidates, Good, Total;
    var stuck, found := Collect(wallet, index);
    if stuck {
      return Refused;
    }
    var candidates := SortCoins(found, index);
    r := Choose(candidates, found, index, amount);
  }

  /** The coins that hold the asset, unless one of them may not be moved. */
  method Collect(wallet: seq<Coin>, index: nat) returns (stuck: bool, candidates: seq<Coin>)
    ensures stuck <==> exists c :: c in wallet && Stuck(c, index)
    ensures !stuck ==> candidates == Candidates(wallet, index)
  {
    hide CountOf, FirstOf;
    candidates := [];
    for i := 0 to |wallet|
      invariant candidates == Candidates(wallet[..i], index)
      invariant forall c :: c in wallet[..i] ==> !Stuck(c, index)
    {
      assert wallet[..i + 1][..i] == wallet[..i];
      assert wallet[..i + 1] == wallet[..i] + [wallet[i]];
      var at := FirstOf(wallet[i].assets, index);
      if at < |wallet[i].assets| {
        if !wallet[i].assets[at].movable {
          assert Stuck(wallet[i], index);
          return true, [];
        }
        candidates := candidates + [wallet[i]];
      }
    }
    assert wallet[..|wallet|] == wallet;
    stuck := false;
  }

  method Choose(candidates: seq<Coin>, ghost unsorted: seq<Coin>, index: nat, amount: nat) returns (r: Selection)
    requires multiset(candidates) == multiset(unsorted) && InOrder(candidates, index)
    ensures !r.Refused?
    ensures r.NotEnough? <==> Total(unsorted, index) < amount
    ensures r.Selected? ==> Good(r.coins, unsorted, index, amount)
  {
    hide Total, CountOf, InOrder, LeastChange, PureFirst, Good, Alone;
    SameTotal(candidates, unsorted, index);
    SameMembers(candidates, unsorted);
    var found, single := BestSingle(candidates, index, amount);
    if found {
      SingleGood(single, candidates, unsorted, index, amount);
      return Selected([single]);
    }
    var selected, total := Gather(candidates, index, amount);
    if total < amount {
      return NotEnough;
    }
    GatheredGood(selected, candidates, unsorted, index, amount);
    return Selected(selected);
  }

  lemma {:induction false} SameMembers(a: seq<Coin>, b: seq<Coin>)
    requires multiset(a) == multiset(b)
    ensures forall c :: c in a <==> c in b
  {
    forall c
      ensures c in a <==> c in b
    {
      assert c in multiset(a) <==> c in multiset(b);
    }
  }

  /** Holding enough alone it is among the candidates, so all together hold enough. */
  lemma {:induction false} SingleGood(single: Coin, candidates: seq<Coin>, unsorted: seq<Coin>, index: nat, amount: nat)
    requires multiset(candidates) == multiset(unsorted) && LeastChange(single, candidates, index, amount)
    ensures Total(unsorted, index) >= amount && Good([single], unsorted, index, amount)
  {
    hide CountOf;
    SameMembers(candidates, unsorted);
    assert single in multiset(unsorted);
    var i := Where(unsorted, single);
    assert Only([single], false) == [] by {
      assert [single][..0] == [];
    }
    hide Total, Only;
    TotalWithout(unsorted, i, index);
    assert [] + [single] == [single];
    TotalStep([], single, index);
    TotalOfNone(index);
    if amount > 0 {
      OneIsFewest([single], unsorted, index, amount);
    }
  }

  lemma {:induction false} OneIsFewest(coins: seq<Coin>, candidates: seq<Coin>, index: nat, amount: nat)
    requires |coins| == 1 && amount > 0 && Only(coins, false) == []
    ensures PureFirst(coins, candidates, index, amount)
  {
    hide CountOf, Only;
    TotalOfNone(index);
    hide Total;
  }

  lemma {:induction false} GatheredGood(selected: seq<Coin>, candidates: seq<Coin>, unsorted: seq<Coin>, index: nat,
                                        amount: nat)
    requires multiset(candidates) == multiset(unsorted) && InOrder(candidates, index)
    requires selected <= candidates && Total(selected, index) >= amount
    requires selected != [] ==> Total(selected[..|selected| - 1], index) < amount
    requires forall c :: c in candidates ==> !Alone(c, index, amount)
    ensures Good(selected, unsorted, index, amount) && Total(candidates, index) >= amount
  {
    hide Total, CountOf, InOrder, PureFirst, Only;
    SameMembers(candidates, unsorted);
    assert candidates == selected + candidates[|selected|..];
    TotalConcat(selected, candidates[|selected|..], index);
    assert forall c :: c in unsorted && |c.assets| == 1 ==> Count(c, index) < amount;
    if amount > 0 {
      assert selected == candidates[..|selected|];
      assert selected != [] ==> selected[..|selected| - 1] == candidates[..|selected| - 1];
      PrefixGood(candidates, |selected|, unsorted, index, amount);
    }
  }

  lemma {:induction false} PrefixGood(candidates: seq<Coin>, n: nat, unsorted: seq<Coin>, index: nat, amount: nat)
    requires multiset(candidates) == multiset(unsorted) && InOrder(candidates, index) && n <= |candidates|
    requires n > 0 ==> Total(candidates[..n - 1], index) < amount
    ensures PureFirst(candidates[..n], unsorted, index, amount)
  {
    hide Total, CountOf, InOrder, Only;
    SamePure(candidates, unsorted, true);
    SameTotal(Only(candidates, true), Only(unsorted, true), index);
    PureTaken(candidates, n, index, amount);
    forall other | && multiset(other) <= multiset(unsorted) && Total(other, index) >= amount
                   && (Only(other, false) == [] || multiset(Only(unsorted, true)) <= multiset(other))
      ensures n <= |other|
    {
      PrefixFewest(candidates, n, other, index, amount);
    }
  }

  /** How often a coin stands in each part. */
  lemma {:induction false} OnlyHas(s: seq<Coin>, pure: bool, c: Coin)
    ensures multiset(Only(s, pure))[c] == if (|c.assets| == 1) == pure then multiset(s)[c] else 0
  {
    if s != [] {
      OnlyHas(s[..|s| - 1], pure, c);
      assert s == s[..|s| - 1] + [s[|s| - 1]];
    }
  }

  lemma {:induction false} SamePure(a: seq<Coin>, b: seq<Coin>, pure: bool)
    requires multiset(a) == multiset(b)
    ensures multiset(Only(a, pure)) == multiset(Only(b, pure))
  {
    forall c
      ensures multiset(Only(a, pure))[c] == multiset(Only(b, pure))[c]
    {
      OnlyHas(a, pure, c);
      OnlyHas(b, pure, c);
    }
  }

  /** Sorted, the pure coins stand in front. */
  lemma {:induction false} PartIs(s: seq<Coin>, pure: bool, i: nat)
    requires i < |Only(s, pure)|
    ensures Pure(Only(s, pure)[i]) == pure && Only(s, pure)[i] in s
  {
    var c := Only(s, pure)[i];
    hide Only;
    OnlyHas(s, pure, c);
    assert c in multiset(Only(s, pure));
    assert c in multiset(s);
  }

  /** Sorted, the pure coins stand in front. */
  lemma {:induction false} PureInFront(s: seq<Coin>, index: nat)
    requires InOrder(s, index)
    ensures Only(s, true) + Only(s, false) == s
  {
    hide CountOf;
    if s != [] {
      var front, last := s[..|s| - 1], s[|s| - 1];
      PureInFront(front, index);
      var a, b := Only(front, true), Only(front, false);
      if Pure(last) && b != [] {
        PartIs(front, false, |b| - 1);
      }
      assert front + [last] == s;
    }
  }

  /** Each part of a sorted list goes from the largest down. */
  lemma {:induction false} LargestFirst(s: seq<Coin>, pure: bool, index: nat)
    requires InOrder(s, index)
    ensures var part := Only(s, pure);
            forall i, j :: 0 <= i < j < |part| ==> Count(part[i], index) >= Count(part[j], index)
  {
    PureInFront(s, index);
    var part := Only(s, pure);
    var off := if pure then 0 else |Only(s, true)|;
    hide CountOf;
    forall i, j | 0 <= i < j < |part|
      ensures Count(part[i], index) >= Count(part[j], index)
    {
      PartIs(s, pure, i);
      PartIs(s, pure, j);
      hide Only;
      assert part[i] == s[off + i] && part[j] == s[off + j];
      assert !Before(s[off + j], s[off + i], index);
    }
  }

  lemma {:induction false} TotalOnly(s: seq<Coin>, index: nat)
    ensures Total(s, index) == Total(Only(s, true), index) + Total(Only(s, false), index)
    ensures |s| == |Only(s, true)| + |Only(s, false)|
  {
    hide CountOf;
    if s != [] {
      var front, last := s[..|s| - 1], s[|s| - 1];
      TotalOnly(front, index);
      assert s == front + [last];
      var pure, mixed := Only(s, true), Only(s, false);
      assert if Pure(last) then pure == Only(front, true) + [last] && mixed == Only(front, false)
             else pure == Only(front, true) && mixed == Only(front, false) + [last];
      hide Total, Only;
      TotalStep(front, last, index);
      TotalStep(Only(front, Pure(last)), last, index);
    }
  }

  /** A choice keeps within each part of what it is chosen from. */
  lemma {:induction false} OnlyWithin(a: seq<Coin>, b: seq<Coin>, pure: bool)
    requires multiset(a) <= multiset(b)
    ensures multiset(Only(a, pure)) <= multiset(Only(b, pure))
  {
    hide Only;
    forall c
      ensures multiset(Only(a, pure))[c] <= multiset(Only(b, pure))[c]
    {
      OnlyHas(a, pure, c);
      OnlyHas(b, pure, c);
    }
  }

  /** A pure choice is its own pure part. */
  lemma {:induction false} AllOfOnePart(a: seq<Coin>)
    requires Only(a, false) == []
    ensures multiset(Only(a, true)) == multiset(a)
  {
    hide Only;
    forall c
      ensures multiset(Only(a, true))[c] == multiset(a)[c]
    {
      OnlyHas(a, true, c);
      OnlyHas(a, false, c);
    }
  }

  /** The pure part of a prefix of a sorted list is all of that prefix or all there is. */
  lemma {:induction false} PrefixParts(s: seq<Coin>, n: nat, index: nat)
    requires InOrder(s, index) && n <= |s|
    ensures var pure, mixed := Only(s, true), Only(s, false);
            if n <= |pure| then s[..n] == pure[..n] && Only(s[..n], false) == []
            else n - |pure| <= |mixed| && s[..n] == pure + mixed[..n - |pure|]
  {
    PureInFront(s, index);
    var pure := Only(s, true);
    if n <= |pure| && Only(s[..n], false) != [] {
      PartIs(s[..n], false, 0);
      var c := Only(s[..n], false)[0];
      var i :| 0 <= i < n && s[..n][i] == c;
      hide Only;
      PartIs(s, true, i);
    }
  }

  lemma {:induction false} PureTaken(candidates: seq<Coin>, n: nat, index: nat, amount: nat)
    requires InOrder(candidates, index) && n <= |candidates|
    requires n > 0 ==> Total(candidates[..n - 1], index) < amount
    ensures Only(candidates[..n], false) == []
            || (multiset(Only(candidates, true)) <= multiset(candidates[..n])
                && Total(Only(candidates, true), index) < amount)
  {
    hide CountOf, Total, Only;
    var pure, mixed := Only(candidates, true), Only(candidates, false);
    PrefixParts(candidates, n, index);
    if n > |pure| {
      PrefixParts(candidates, n - 1, index);
      var rest := mixed[..n - 1 - |pure|];
      assert candidates[..n - 1] == pure + rest;
      TotalConcat(pure, rest, index);
    }
  }

  /** Pure coins alone cannot be fewer. */
  lemma {:induction false} PureFewest(candidates: seq<Coin>, n: nat, other: seq<Coin>, index: nat, amount: nat)
    requires InOrder(candidates, index) && 0 < n <= |candidates| && |other| < n
    requires Total(candidates[..n - 1], index) < amount
    requires multiset(other) <= multiset(Only(candidates, true))
    ensures Total(other, index) < amount
  {
    hide CountOf, Total, Only, InOrder;
    var pure, mixed := Only(candidates, true), Only(candidates, false);
    PrefixParts(candidates, n - 1, index);
    LargestFirst(candidates, true, index);
    NoLonger(other, pure);
    var k := if n - 1 <= |pure| then n - 1 else |pure|;
    FirstHoldMost(pure, other, k, index);
    if n - 1 > |pure| {
      var rest := mixed[..n - 1 - |pure|];
      assert pure[..k] == pure;
      TotalConcat(pure, rest, index);
    }
  }

  lemma {:induction false} NoLonger(a: seq<Coin>, b: seq<Coin>)
    requires multiset(a) <= multiset(b)
    ensures |a| <= |b|
  {
    assert multiset(b) == multiset(a) + (multiset(b) - multiset(a));
    assert |multiset(a)| == |a| && |multiset(b)| == |b|;
  }

  /** Nor can coins taken on top of all the pure ones. */
  lemma {:induction false} MixedFewest(candidates: seq<Coin>, n: nat, other: seq<Coin>, index: nat, amount: nat)
    requires InOrder(candidates, index) && 0 < n <= |candidates| && |other| < n
    requires Total(candidates[..n - 1], index) < amount
    requires multiset(other) <= multiset(candidates) && multiset(Only(candidates, true)) <= multiset(other)
    ensures Total(other, index) < amount
  {
    hide CountOf, Total, Only, InOrder;
    var pure, mixed := Only(candidates, true), Only(candidates, false);
    NoLonger(pure, other);
    PrefixParts(candidates, n - 1, index);
    OnlyWithin(other, candidates, true);
    OnlyWithin(other, candidates, false);
    PureKept(pure, other, candidates);
    SameTotal(Only(other, true), pure, index);
    NoLonger(pure, Only(other, true));
    TotalOnly(other, index);
    LargestFirst(candidates, false, index);
    var rest := mixed[..n - 1 - |pure|];
    FirstHoldMost(mixed, Only(other, false), |rest|, index);
    TotalConcat(pure, rest, index);
    assert candidates[..n - 1] == pure + rest && mixed[..|rest|] == rest;
  }

  lemma {:induction false} PureKept(pure: seq<Coin>, other: seq<Coin>, candidates: seq<Coin>)
    requires pure == Only(candidates, true) && multiset(pure) <= multiset(other) <= multiset(candidates)
    ensures multiset(Only(other, true)) == multiset(pure)
  {
    hide Only;
    forall c
      ensures multiset(Only(other, true))[c] == multiset(pure)[c]
    {
      OnlyHas(other, true, c);
      OnlyHas(candidates, true, c);
    }
  }

  lemma {:induction false} PrefixFewest(candidates: seq<Coin>, n: nat, other: seq<Coin>, index: nat, amount: nat)
    requires InOrder(candidates, index) && n <= |candidates|
    requires n > 0 ==> Total(candidates[..n - 1], index) < amount
    requires multiset(other) <= multiset(candidates) && Total(other, index) >= amount
    requires Only(other, false) == [] || multiset(Only(candidates, true)) <= multiset(other)
    ensures n <= |other|
  {
    hide CountOf, Total, Only, InOrder;
    if |other| < n {
      if Only(other, false) == [] {
        AllOfOnePart(other);
        OnlyWithin(other, candidates, true);
        PureFewest(candidates, n, other, index, amount);
      } else {
        MixedFewest(candidates, n, other, index, amount);
      }
    }
  }
}
