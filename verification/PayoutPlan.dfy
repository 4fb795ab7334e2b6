/** What one payout sends: the budget, the split over addresses, the filters and the
    sendmany amounts (pool/PoolDashboard.cpp, pool/PayoutMath.h). DGB amounts are reals;
    what reaches the wallet and the ledger is whole satoshis. */
module PayoutPlan {
  import opened Results
  import opened Ranking
  import Decimal
  import Amounts

  const DUST_DGB := 0.0001

  datatype Target = Target(address: string, weight: real)

  type Payment = (string, real)

  // pool/PayoutMath.h:24-27
  /** Half-up rounding to satoshis. */
  function PayoutSats(dgb: real): (sats: nat)
    ensures dgb >= 0.0 ==> dgb * 100000000.0 - 0.5 < sats as real <= dgb * 100000000.0 + 0.5
    ensures dgb < 0.0 ==> sats == 0
  {
    ((if dgb < 0.0 then 0.0 else dgb) * 100000000.0 + 0.5).Floor
  }

  predicate IsBelowDust(dgb: real) {
    dgb < DUST_DGB
  }

  /** Dust is what is under 10000 satoshis; every other amount is at least that as sent. */
  lemma {:induction false} AboveDust(dgb: real)
    ensures IsBelowDust(dgb) <==> dgb * 100000000.0 < 10000.0
    ensures if IsBelowDust(dgb) then PayoutSats(dgb) <= 10000 else PayoutSats(dgb) >= 10000
  {
    assert !IsBelowDust(dgb) ==> dgb * 100000000.0 >= 10000.0;
  }

  // The budget.

  function FeeReserve(outputs: nat): real {
    0.01 + 0.0002 * outputs as real
  }

  /** All of the balance but the fee reserve is spent, or nothing where it does not cover that. */
  predicate CapsTo(spend: real, balance: real, outputs: nat) {
    spend == 0.0 >= balance - 0.01 - 0.0002 * outputs as real
    || spend == balance - 0.01 - 0.0002 * outputs as real >= 0.0
  }

  // pool/PoolDashboard.cpp:306-347
  /** -1.0 when the percentage cannot be taken because the balance could not be read;
      a negative balance is the RPC layer's failure value. */
  function ComputeBudget(balance: real, percent: real, perPeriod: real, outputs: nat): (spend: real)
    ensures balance >= 0.0 && spend > 0.0 ==> spend <= balance - FeeReserve(outputs)
    ensures percent > 0.0 ==> (spend == -1.0 <==> balance < 0.0)
    ensures percent > 0.0 && balance >= 0.0 ==> spend >= 0.0
    ensures percent <= 0.0 ==> spend <= if perPeriod > 0.0 then perPeriod else 0.0
    ensures percent > 0.0 && balance >= 0.0 ==>
              var due := balance * if percent > 100.0 then 100.0 else percent;
              var fits := due <= 100.0 * (balance - 0.01 - 0.0002 * outputs as real);
              100.0 * spend <= due && (fits ==> 100.0 * spend == due) && (!fits ==> CapsTo(spend, balance, outputs))
    ensures percent <= 0.0 ==>
              if balance < 0.0 || perPeriod + 0.01 + 0.0002 * outputs as real <= balance then spend == perPeriod
              else CapsTo(spend, balance, outputs)
  {
    var room := balance - FeeReserve(outputs);
    if percent > 0.0 then
      var share := if percent > 100.0 then 100.0 else percent;
      if balance < 0.0 then -1.0
      else
        var budget := balance * (share / 100.0);
        var capped := if budget > room then room else budget;
        if capped < 0.0 then 0.0 else capped
    else if balance >= 0.0 && perPeriod > room then
      if room < 0.0 then 0.0 else room
    else perPeriod
  }

  /** A positive budget is covered by a known balance, fee reserve included, except
      exactly when a fixed amount is configured and the balance could not be read. */
  lemma {:induction false} Uncapped(balance: real, percent: real, perPeriod: real, outputs: nat)
    requires ComputeBudget(balance, percent, perPeriod, outputs) > 0.0
    ensures var spend := ComputeBudget(balance, percent, perPeriod, outputs);
            !(0.0 <= balance && spend <= balance - FeeReserve(outputs)) <==> percent <= 0.0 && balance < 0.0
  {
  }

  // The split.

  function Share(spend: real, weight: real, total: real): real
    requires total != 0.0
  {
    spend * weight / total
  }

  function TotalWeight(targets: seq<Target>): real {
    if targets == [] then 0.0 else TotalWeight(targets[..|targets| - 1]) + targets[|targets| - 1].weight
  }

  /** The shares of an address's nodes, the positive ones. */
  function ShareOf(targets: seq<Target>, address: string, spend: real, total: real): real
    requires total != 0.0
  {
    if targets == [] then 0.0
    else
      var t := targets[|targets| - 1];
      var amt := Share(spend, t.weight, total);
      ShareOf(targets[..|targets| - 1], address, spend, total) + if t.address == address && amt > 0.0 then amt else 0.0
  }

  function AllShares(targets: seq<Target>, spend: real, total: real): real
    requires total != 0.0
  {
    if targets == [] then 0.0
    else
      var amt := Share(spend, targets[|targets| - 1].weight, total);
      AllShares(targets[..|targets| - 1], spend, total) + if amt > 0.0 then amt else 0.0
  }

  function SumOf(payments: seq<Payment>): real {
    if payments == [] then 0.0 else SumOf(payments[..|payments| - 1]) + payments[|payments| - 1].1
  }

  function SumSats(payments: seq<Payment>): nat {
    if payments == [] then 0 else SumSats(payments[..|payments| - 1]) + PayoutSats(payments[|payments| - 1].1)
  }

  predicate OtherAddress(a: Payment, b: Payment) {
    a.0 != b.0
  }

  ghost predicate DistinctAddresses(payments: seq<Payment>) {
    Comparable(payments, OtherAddress)
  }

  /** One positive payment for each address with a positive share: the sum of its nodes' shares. */
  ghost predicate SplitOf(payments: seq<Payment>, targets: seq<Target>, spend: real, total: real)
    requires total != 0.0
  {
    && DistinctAddresses(payments)
    && (forall k :: 0 <= k < |payments| ==>
                      payments[k].1 == ShareOf(targets, payments[k].0, spend, total) && payments[k].1 > 0.0)
    && (forall a :: ShareOf(targets, a, spend, total) > 0.0 ==> exists k :: 0 <= k < |payments| && payments[k].0 == a)
    && SumOf(payments) == AllShares(targets, spend, total)
  }

  ghost predicate IndexOf(addrIdx: map<string, nat>, payments: seq<Payment>) {
    && (forall a :: a in addrIdx ==> addrIdx[a] < |payments| && payments[addrIdx[a]].0 == a)
    && (forall k :: 0 <= k < |payments| ==> payments[k].0 in addrIdx && addrIdx[payments[k].0] == k)
  }

  lemma {:induction false} ShareNonNegative(targets: seq<Target>, address: string, spend: real, total: real)
    requires total != 0.0
    ensures ShareOf(targets, address, spend, total) >= 0.0
  {
    hide Share;
    if targets != [] {
      ShareNonNegative(targets[..|targets| - 1], address, spend, total);
    }
  }

  lemma {:induction false} SumRaised(payments: seq<Payment>, k: nat, amt: real)
    requires k < |payments|
    ensures SumOf(payments[k := (payments[k].0, payments[k].1 + amt)]) == SumOf(payments) + amt
  {
    var raised := payments[k := (payments[k].0, payments[k].1 + amt)];
    var last := |payments| - 1;
    if k == last {
      assert raised[..last] == payments[..last];
    } else {
      SumRaised(payments[..last], k, amt);
      assert raised[..last] == payments[..last][k := (payments[k].0, payments[k].1 + amt)];
    }
  }

  // pool/PoolDashboard.cpp:853-870
  method Split(targets: seq<Target>, spend: real, total: real) returns (payments: seq<Payment>)
    requires total != 0.0
    ensures SplitOf(payments, targets, spend, total) && |payments| <= |targets|
  {
    payments := [];
    var addrIdx: map<string, nat> := map[];
    assert SplitOf(payments, targets[..0], spend, total) && IndexOf(addrIdx, payments);
    hide *;
    for i := 0 to |targets|
      invariant SplitOf(payments, targets[..i], spend, total) && IndexOf(addrIdx, payments) && |payments| <= i
    {
      assert targets[..i + 1] == targets[..i] + [targets[i]];
      payments, addrIdx := AddShare(payments, addrIdx, targets[..i], targets[i], spend, total);
    }
    assert targets[..|targets|] == targets;
  }

  method AddShare(payments: seq<Payment>, addrIdx: map<string, nat>, ghost targets: seq<Target>, t: Target,
                  spend: real, total: real)
    returns (after: seq<Payment>, afterIdx: map<string, nat>)
    requires total != 0.0 && SplitOf(payments, targets, spend, total) && IndexOf(addrIdx, payments)
    ensures SplitOf(after, targets + [t], spend, total) && IndexOf(afterIdx, after) && |after| <= |payments| + 1
  {
    hide *;
    var amt := Share(spend, t.weight, total);
    after, afterIdx := payments, addrIdx;
    if amt <= 0.0 {
      SkippedSplit(payments, targets, t, spend, total);
    } else if t.address in addrIdx {
      IndexAt(addrIdx, payments, t.address);
      var k := addrIdx[t.address];
      RaisedSplit(payments, k, targets, t, spend, total);
      IndexRaised(addrIdx, payments, k, amt);
      after := payments[k := (t.address, payments[k].1 + amt)];
    } else {
      AppendedSplit(payments, addrIdx, targets, t, spend, total);
      IndexAppended(addrIdx, payments, t.address, amt);
      afterIdx := addrIdx[t.address := |payments|];
      after := payments + [(t.address, amt)];
    }
  }

  lemma {:induction false} IndexAt(addrIdx: map<string, nat>, payments: seq<Payment>, a: string)
    requires IndexOf(addrIdx, payments) && a in addrIdx
    ensures addrIdx[a] < |payments| && payments[addrIdx[a]].0 == a
  {
  }

  lemma {:induction false} IndexRaised(addrIdx: map<string, nat>, payments: seq<Payment>, k: nat, amt: real)
    requires IndexOf(addrIdx, payments) && k < |payments|
    ensures IndexOf(addrIdx, payments[k := (payments[k].0, payments[k].1 + amt)])
  {
  }

  lemma {:induction false} IndexAppended(addrIdx: map<string, nat>, payments: seq<Payment>, a: string, amt: real)
    requires IndexOf(addrIdx, payments) && a !in addrIdx
    ensures IndexOf(addrIdx[a := |payments|], payments + [(a, amt)])
  {
  }

  lemma {:induction false} ShareStep(targets: seq<Target>, t: Target, address: string, spend: real, total: real)
    requires total != 0.0
    ensures var amt := Share(spend, t.weight, total);
            && ShareOf(targets + [t], address, spend, total)
               == ShareOf(targets, address, spend, total) + (if t.address == address && amt > 0.0 then amt else 0.0)
            && AllShares(targets + [t], spend, total)
               == AllShares(targets, spend, total) + if amt > 0.0 then amt else 0.0
  {
    assert (targets + [t])[..|targets|] == targets;
  }

  lemma {:induction false} SkippedSplit(payments: seq<Payment>, targets: seq<Target>, t: Target, spend: real,
                                        total: real)
    requires total != 0.0 && SplitOf(payments, targets, spend, total) && Share(spend, t.weight, total) <= 0.0
    ensures SplitOf(payments, targets + [t], spend, total)
  {
    hide Share, DistinctAddresses, SumOf;
    forall a
      ensures ShareOf(targets + [t], a, spend, total) == ShareOf(targets, a, spend, total)
      ensures AllShares(targets + [t], spend, total) == AllShares(targets, spend, total)
    {
      ShareStep(targets, t, a, spend, total);
    }
  }

  lemma {:induction false} DistinctRaised(payments: seq<Payment>, k: nat, amt: real)
    requires DistinctAddresses(payments) && k < |payments|
    ensures DistinctAddresses(payments[k := (payments[k].0, payments[k].1 + amt)])
    ensures forall j :: 0 <= j < |payments| && j != k ==> payments[j].0 != payments[k].0
  {
    forall j | 0 <= j < |payments| && j != k
      ensures payments[j].0 != payments[k].0
    {
      assert OtherAddress(payments[if j < k then j else k], payments[if j < k then k else j])
             || OtherAddress(payments[if j < k then k else j], payments[if j < k then j else k]);
    }
  }

  lemma {:induction false} RaisedSplit(payments: seq<Payment>, k: nat, targets: seq<Target>, t: Target, spend: real,
                                       total: real)
    requires total != 0.0 && SplitOf(payments, targets, spend, total) && Share(spend, t.weight, total) > 0.0
    requires k < |payments| && payments[k].0 == t.address
    ensures var raised := payments[k := (t.address, payments[k].1 + Share(spend, t.weight, total))];
            SplitOf(raised, targets + [t], spend, total)
  {
    hide Share, ShareOf, AllShares;
    var amt := Share(spend, t.weight, total);
    var raised := payments[k := (t.address, payments[k].1 + amt)];
    SumRaised(payments, k, amt);
    DistinctRaised(payments, k, amt);
    hide SumOf, DistinctAddresses;
    RaisedShares(payments, raised, k, targets, t, spend, total);
    RaisedCovers(payments, raised, k, targets, t, spend, total);
    ShareStep(targets, t, t.address, spend, total);
  }

  lemma {:induction false} RaisedShares(payments: seq<Payment>, raised: seq<Payment>, k: nat, targets: seq<Target>,
                                        t: Target, spend: real, total: real)
    requires total != 0.0 && k < |payments| == |raised| && payments[k].0 == t.address && DistinctAddresses(payments)
    requires Share(spend, t.weight, total) > 0.0
    requires raised == payments[k := (t.address, payments[k].1 + Share(spend, t.weight, total))]
    requires forall j :: 0 <= j < |payments| ==>
                           payments[j].1 == ShareOf(targets, payments[j].0, spend, total) && payments[j].1 > 0.0
    ensures forall j :: 0 <= j < |raised| ==>
                          raised[j].1 == ShareOf(targets + [t], raised[j].0, spend, total) && raised[j].1 > 0.0
  {
    hide Share, ShareOf;
    forall j | 0 <= j < |raised|
      ensures raised[j].1 == ShareOf(targets + [t], raised[j].0, spend, total) && raised[j].1 > 0.0
    {
      ShareStep(targets, t, raised[j].0, spend, total);
      assert j != k ==> OtherAddress(payments[if j < k then j else k], payments[if j < k then k else j]);
    }
  }

  lemma {:induction false} RaisedCovers(payments: seq<Payment>, raised: seq<Payment>, k: nat, targets: seq<Target>,
                                        t: Target, spend: real, total: real)
    requires total != 0.0 && k < |payments| == |raised| && payments[k].0 == t.address
    requires forall j :: 0 <= j < |raised| ==> raised[j].0 == payments[j].0
    requires forall a :: ShareOf(targets, a, spend, total) > 0.0 ==>
                           exists j :: 0 <= j < |payments| && payments[j].0 == a
    ensures forall a :: ShareOf(targets + [t], a, spend, total) > 0.0 ==>
                          exists j :: 0 <= j < |raised| && raised[j].0 == a
  {
    hide Share, ShareOf;
    forall a | ShareOf(targets + [t], a, spend, total) > 0.0
      ensures exists j :: 0 <= j < |raised| && raised[j].0 == a
    {
      ShareStep(targets, t, a, spend, total);
      if a == t.address {
        assert raised[k].0 == a;
      } else {
        var j :| 0 <= j < |payments| && payments[j].0 == a;
        assert raised[j].0 == a;
      }
    }
  }

  lemma {:induction false} DistinctAppended(payments: seq<Payment>, addrIdx: map<string, nat>, a: string, amt: real)
    requires DistinctAddresses(payments) && IndexOf(addrIdx, payments) && a !in addrIdx
    ensures DistinctAddresses(payments + [(a, amt)])
  {
  }

  lemma {:induction false} AppendedSplit(payments: seq<Payment>, addrIdx: map<string, nat>, targets: seq<Target>,
                                         t: Target, spend: real, total: real)
    requires total != 0.0 && SplitOf(payments, targets, spend, total) && Share(spend, t.weight, total) > 0.0
    requires IndexOf(addrIdx, payments) && t.address !in addrIdx
    ensures SplitOf(payments + [(t.address, Share(spend, t.weight, total))], targets + [t], spend, total)
  {
    hide Share, ShareOf, AllShares;
    var amt := Share(spend, t.weight, total);
    var longer := payments + [(t.address, amt)];
    assert longer[..|payments|] == payments;
    DistinctAppended(payments, addrIdx, t.address, amt);
    hide SumOf, DistinctAddresses;
    ShareNonNegative(targets, t.address, spend, total);
    forall j | 0 <= j < |longer|
      ensures longer[j].1 == ShareOf(targets + [t], longer[j].0, spend, total) && longer[j].1 > 0.0
    {
      ShareStep(targets, t, longer[j].0, spend, total);
    }
    hide DistinctAddresses;
    forall a | ShareOf(targets + [t], a, spend, total) > 0.0
      ensures exists j :: 0 <= j < |longer| && longer[j].0 == a
    {
      ShareStep(targets, t, a, spend, total);
      if a == t.address {
        assert longer[|payments|].0 == a;
      } else {
        var j :| 0 <= j < |payments| && payments[j].0 == a;
        assert longer[j].0 == a;
      }
    }
    ShareStep(targets, t, t.address, spend, total);
  }

  // The shares make up the budget.

  ghost predicate Weighted(targets: seq<Target>) {
    forall i :: 0 <= i < |targets| ==> targets[i].weight >= 0.0
  }

  lemma {:induction false} ShareAdds(spend: real, a: real, b: real, total: real)
    requires total > 0.0
    ensures Share(spend, a + b, total) == Share(spend, a, total) + Share(spend, b, total)
    ensures Share(spend, total, total) == spend && Share(spend, 0.0, total) == 0.0
    ensures spend >= 0.0 && b >= 0.0 ==> Share(spend, b, total) >= 0.0
  {
    assert spend * (a + b) == spend * a + spend * b;
    Divides(spend * a, spend * b, total);
    Divides(spend, 0.0, total);
    if spend >= 0.0 && b >= 0.0 {
      assert spend * b >= 0.0;
    }
  }

  lemma {:induction false} Divides(x: real, y: real, d: real)
    requires d > 0.0
    ensures (x + y) / d == x / d + y / d && x * d / d == x
  {
  }

  /** The weight of an address's nodes. */
  function WeightOf(targets: seq<Target>, address: string): real {
    if targets == [] then 0.0
    else
      var t := targets[|targets| - 1];
      WeightOf(targets[..|targets| - 1], address) + if t.address == address then t.weight else 0.0
  }

  /** An address gets the part of the budget that its nodes have of the weight. */
  lemma {:induction false} PaidByWeight(targets: seq<Target>, address: string, spend: real, total: real)
    requires Weighted(targets) && total > 0.0 && spend >= 0.0
    ensures ShareOf(targets, address, spend, total) * total == spend * WeightOf(targets, address)
  {
    if targets != [] {
      var front, t := targets[..|targets| - 1], targets[|targets| - 1];
      PaidByWeight(front, address, spend, total);
      ShareTimes(spend, t.weight, total);
      var before := ShareOf(front, address, spend, total);
      var w := WeightOf(front, address);
      hide Share;
      if t.address == address {
        Distributes(before, Share(spend, t.weight, total), total);
        Distributes(w, t.weight, spend);
      }
    }
  }

  lemma {:induction false} ShareTimes(spend: real, weight: real, total: real)
    requires total > 0.0 && spend >= 0.0 && weight >= 0.0
    ensures Share(spend, weight, total) * total == spend * weight && Share(spend, weight, total) >= 0.0
  {
    ShareAdds(spend, 0.0, weight, total);
  }

  lemma {:induction false} Distributes(a: real, b: real, c: real)
    ensures (a + b) * c == a * c + b * c && c * (a + b) == c * a + c * b
  {
  }

  lemma {:induction false} SharesMakeBudget(targets: seq<Target>, spend: real, total: real)
    requires Weighted(targets) && total > 0.0 && spend >= 0.0
    ensures AllShares(targets, spend, total) == Share(spend, TotalWeight(targets), total)
  {
    if targets == [] {
      ShareAdds(spend, 0.0, 0.0, total);
    } else {
      var front, w := targets[..|targets| - 1], targets[|targets| - 1].weight;
      SharesMakeBudget(front, spend, total);
      ShareAdds(spend, TotalWeight(front), w, total);
      hide Share;
    }
  }

  // Filters.

  method KeepWhere(payments: seq<Payment>, keep: Payment -> bool) returns (kept: seq<Payment>)
    ensures kept == Kept(payments, keep)
  {
    kept := [];
    for i := 0 to |payments|
      invariant kept == Kept(payments[..i], keep)
    {
      assert payments[..i + 1][..i] == payments[..i];
      if keep(payments[i]) {
        kept := kept + [payments[i]];
      }
    }
    assert payments[..|payments|] == payments;
  }

  ghost predicate Positive(payments: seq<Payment>) {
    forall k :: 0 <= k < |payments| ==> payments[k].1 > 0.0
  }

  /** Dropping payments keeps the others as they were and the sum no larger. */
  lemma {:induction false} KeptLess(payments: seq<Payment>, keep: Payment -> bool)
    requires Positive(payments)
    ensures SumOf(Kept(payments, keep)) <= SumOf(payments) && Positive(Kept(payments, keep))
  {
    hide SumOf, Kept;
    if payments == [] {
      KeptNone(keep);
    } else {
      var front, last := payments[..|payments| - 1], payments[|payments| - 1];
      assert payments == front + [last];
      KeptLess(front, keep);
      KeptStep(front, last, keep);
      SumStep(front, last);
      var k := Kept(front, keep);
      SumStep(k, last);
      assert k + [] == k;
    }
  }

  lemma {:induction false} KeptNone(keep: Payment -> bool)
    ensures Kept([], keep) == []
  {
  }

  lemma {:induction false} SumStep(s: seq<Payment>, p: Payment)
    ensures SumOf(s + [p]) == SumOf(s) + p.1
  {
    assert (s + [p])[..|s|] == s;
  }

  lemma {:induction false} KeptDistinct(payments: seq<Payment>, keep: Payment -> bool)
    requires DistinctAddresses(payments)
    ensures DistinctAddresses(Kept(payments, keep))
  {
    hide Kept, OtherAddress;
    KeptIsPart(payments, keep);
    SubComparable(payments, Kept(payments, keep), OtherAddress);
  }

  predicate LowerOrDigit(c: char) {
    'a' <= c <= 'z' || '0' <= c <= '9'
  }

  predicate Base58Char(c: char) {
    '1' <= c <= '9' || ('A' <= c <= 'Z' && c != 'I' && c != 'O') || ('a' <= c <= 'z' && c != 'l')
  }

  /** The shape of an address; the checksum is Core's to judge. */
  predicate IsValidDgbAddress(a: string) {
    26 <= |a| <= 90
    && if a[..4] == "dgb1" then forall i :: 0 <= i < |a| ==> LowerOrDigit(a[i])
       else (a[0] == 'D' || a[0] == 'S') && forall i :: 0 <= i < |a| ==> Base58Char(a[i])
  }

  const BASE58 := "123456789" + ("ABCDEFGH" + "JKLMN" + "PQRSTUVWXYZ") + ("abcdefghijk" + "mnopqrstuvwxyz")
  const BECH32 := "abcdefghijklmnopqrstuvwxyz" + "0123456789"

  lemma {:induction false} InRun(c: char, run: string)
    requires run != "" && forall i :: 0 <= i < |run| ==> run[i] as nat == run[0] as nat + i
    ensures c in run <==> run[0] <= c <= run[|run| - 1]
  {
    if run[0] <= c <= run[|run| - 1] {
      assert run[c as nat - run[0] as nat] == c;
    }
  }

  lemma {:induction false} Characters(c: char)
    ensures LowerOrDigit(c) <==> c in BECH32
    ensures Base58Char(c) <==> c in BASE58
    ensures c in BASE58 || c in BECH32 ==> c !in "\"\\{}[]:, "
  {
    UpperBase58(c);
    LowerBase58(c);
    InRun(c, "abcdefghijklmnopqrstuvwxyz");
    InRun(c, "0123456789");
  }

  lemma {:induction false} UpperBase58(c: char)
    ensures c in "123456789" <==> '1' <= c <= '9'
    ensures c in "ABCDEFGH" + "JKLMN" + "PQRSTUVWXYZ" <==> 'A' <= c <= 'Z' && c != 'I' && c != 'O'
  {
    InRun(c, "123456789");
    InRun(c, "ABCDEFGH");
    InRun(c, "JKLMN");
    InRun(c, "PQRSTUVWXYZ");
  }

  lemma {:induction false} LowerBase58(c: char)
    ensures c in "abcdefghijk" + "mnopqrstuvwxyz" <==> 'a' <= c <= 'z' && c != 'l'
  {
    InRun(c, "abcdefghijk");
    InRun(c, "mnopqrstuvwxyz");
  }

  /** The two shapes by the characters they are made of; none of them means anything to JSON. */
  lemma {:induction false} AddressShape(a: string)
    ensures IsValidDgbAddress(a) <==>
            && 25 < |a| < 91
            && (|| ("dgb1" <= a && forall c :: c in a ==> c in BECH32)
                || (a[0] in "DS" && forall c :: c in a ==> c in BASE58))
    ensures IsValidDgbAddress(a) ==> forall c :: c in a ==> c !in "\"\\{}[]:, "
  {
    forall c: char
      ensures LowerOrDigit(c) <==> c in BECH32
      ensures Base58Char(c) <==> c in BASE58
      ensures c in BASE58 || c in BECH32 ==> c !in "\"\\{}[]:, "
    {
      Characters(c);
    }
    assert |a| >= 4 ==> (a[..4] == "dgb1" <==> "dgb1" <= a);
    assert forall i :: 0 <= i < |a| ==> a[i] in a;
    hide LowerOrDigit, Base58Char;
    if "dgb1" <= a {
      assert a[0] == 'd';
    }
  }

  function NotPaidByPeers(paid: set<string>): Payment -> bool {
    (p: Payment) => p.0 !in paid
  }

  function NotDust(): Payment -> bool {
    (p: Payment) => !IsBelowDust(p.1)
  }

  function ValidPayee(coreSaysValid: string -> bool): Payment -> bool {
    (p: Payment) => IsValidDgbAddress(p.0) && coreSaysValid(p.0)
  }

  /** A payment that passes every filter. */
  predicate Payable(p: Payment, paidByPeers: set<string>, coreSaysValid: string -> bool) {
    p.0 !in paidByPeers && !IsBelowDust(p.1) && IsValidDgbAddress(p.0) && coreSaysValid(p.0)
  }

  /** The plan: each address once, paid the sum of its nodes' shares; exactly the addresses
      whose sum is not dust, that Core accepts and no peer pool has paid. */
  ghost predicate PlanOf(payments: seq<Payment>, targets: seq<Target>, spend: real, total: real,
                         paidByPeers: set<string>, coreSaysValid: string -> bool)
    requires total != 0.0
  {
    && DistinctAddresses(payments)
    && (forall p :: p in payments ==>
          p.1 == ShareOf(targets, p.0, spend, total) && Payable(p, paidByPeers, coreSaysValid))
    && (forall a :: Payable((a, ShareOf(targets, a, spend, total)), paidByPeers, coreSaysValid) ==>
                      exists k :: 0 <= k < |payments| && payments[k].0 == a)
  }

  method BuildPlan(targets: seq<Target>, spend: real, total: real, paidByPeers: set<string>,
                   coreSaysValid: string -> bool)
    returns (payments: seq<Payment>)
    requires total > 0.0
    ensures PlanOf(payments, targets, spend, total, paidByPeers, coreSaysValid)
    ensures SumOf(payments) <= AllShares(targets, spend, total) && |payments| <= |targets|
  {
    hide Share, ShareOf, AllShares, Kept, SumOf, IsValidDgbAddress, PlanOf, DistinctAddresses;
    var split := Split(targets, spend, total);
    KeptLess(split, NotPaidByPeers(paidByPeers));
    KeptDistinct(split, NotPaidByPeers(paidByPeers));
    var unpaid := KeepWhere(split, NotPaidByPeers(paidByPeers));
    KeptLess(unpaid, NotDust());
    KeptDistinct(unpaid, NotDust());
    var sendable := KeepWhere(unpaid, NotDust());
    KeptLess(sendable, ValidPayee(coreSaysValid));
    KeptDistinct(sendable, ValidPayee(coreSaysValid));
    payments := KeepWhere(sendable, ValidPayee(coreSaysValid));
    Filtered(split, unpaid, sendable, payments, targets, spend, total, paidByPeers, coreSaysValid);
  }

  lemma {:induction false} Filtered(split: seq<Payment>, unpaid: seq<Payment>, sendable: seq<Payment>,
                                    payments: seq<Payment>, targets: seq<Target>, spend: real, total: real,
                                    paidByPeers: set<string>, coreSaysValid: string -> bool)
    requires total > 0.0 && SplitOf(split, targets, spend, total) && DistinctAddresses(payments)
    requires unpaid == Kept(split, NotPaidByPeers(paidByPeers)) && sendable == Kept(unpaid, NotDust())
    requires payments == Kept(sendable, ValidPayee(coreSaysValid))
    ensures PlanOf(payments, targets, spend, total, paidByPeers, coreSaysValid)
  {
    hide Share, ShareOf, AllShares, Kept, SumOf, IsValidDgbAddress, DistinctAddresses;
    forall p
      ensures p in payments <==> p in split && Payable(p, paidByPeers, coreSaysValid)
    {
      KeptPass(split, NotPaidByPeers(paidByPeers), p);
      KeptPass(unpaid, NotDust(), p);
      KeptPass(sendable, ValidPayee(coreSaysValid), p);
    }
    forall a | Payable((a, ShareOf(targets, a, spend, total)), paidByPeers, coreSaysValid)
      ensures exists k :: 0 <= k < |payments| && payments[k].0 == a
    {
      assert ShareOf(targets, a, spend, total) > 0.0;
      var k :| 0 <= k < |split| && split[k].0 == a;
      assert split[k] in payments;
    }
  }

  // Whole satoshis.

  lemma {:induction false} SatsNearSum(payments: seq<Payment>)
    requires Positive(payments)
    ensures SumSats(payments) as real <= SumOf(payments) * 100000000.0 + 0.5 * |payments| as real
  {
    if payments != [] {
      SatsNearSum(payments[..|payments| - 1]);
    }
  }

  /** What a plan sends, in satoshis and with the fee reserve on top, never exceeds the
      balance its budget was taken from. */
  lemma {:induction false} PlanWithinBalance(payments: seq<Payment>, targets: seq<Target>, balance: real,
                                             percent: real, perPeriod: real)
    requires Weighted(targets) && TotalWeight(targets) > 0.0 && balance >= 0.0
    requires var spend := ComputeBudget(balance, percent, perPeriod, |targets|);
             && spend > 0.0 && Positive(payments) && |payments| <= |targets|
             && SumOf(payments) <= AllShares(targets, spend, TotalWeight(targets))
    ensures SumSats(payments) as real + 1000000.0 <= balance * 100000000.0
  {
    var spend := ComputeBudget(balance, percent, perPeriod, |targets|);
    hide ComputeBudget, AllShares, SumOf, SumSats, Share;
    SharesMakeBudget(targets, spend, TotalWeight(targets));
    ShareAdds(spend, 0.0, 0.0, TotalWeight(targets));
    SatsNearSum(payments);
  }

  // The sendmany text.

  function Entry(p: Payment): string {
    "\"" + p.0 + "\":" + Amounts.SatsText(PayoutSats(p.1))
  }

  function Entries(payments: seq<Payment>): string {
    if payments == [] then ""
    else if |payments| == 1 then Entry(payments[0])
    else Entries(payments[..|payments| - 1]) + "," + Entry(payments[|payments| - 1])
  }

  ghost predicate AllValid(payments: seq<Payment>) {
    forall k :: 0 <= k < |payments| ==> IsValidDgbAddress(payments[k].0)
  }

  // pool/PoolDashboard.cpp:156-178
  /** The amounts object, or nothing to send when a payee could break it. */
  method SendManyAmounts(payments: seq<Payment>) returns (r: Result<string>)
    ensures r.Ok? <==> payments != [] && AllValid(payments)
    ensures r.Ok? ==> r.value == "{" + Entries(payments) + "}"
  {
    hide IsValidDgbAddress, Decimal.Text, Decimal.Padded, Entry;
    if payments == [] {
      return Err;
    }
    var amounts := "{";
    var first := true;
    for i := 0 to |payments|
      invariant AllValid(payments[..i]) && amounts == "{" + Entries(payments[..i]) && first == (i == 0)
    {
      var p := payments[i];
      if !IsValidDgbAddress(p.0) {
        return Err;
      }
      var sat := PayoutSats(p.1);
      var amountBuf := Decimal.Text(sat / Amounts.COIN) + "." + Decimal.Padded(sat % Amounts.COIN, 8);
      ghost var before := amounts;
      EntriesStep(payments[..i], p);
      assert payments[..i + 1] == payments[..i] + [p];
      if !first {
        amounts := amounts + ",";
      }
      amounts := amounts + "\"" + p.0 + "\":" + amountBuf;
      assert amounts == before + (if i > 0 then "," else "") + Entry(p) by {
        AmountsJoined(before, i > 0, p, amountBuf);
      }
      first := false;
    }
    assert payments[..|payments|] == payments;
    return Ok(amounts + "}");
  }

  lemma {:induction false} AmountsJoined(before: string, more: bool, p: Payment, amountBuf: string)
    requires amountBuf == Amounts.SatsText(PayoutSats(p.1))
    ensures (if more then before + "," else before) + "\"" + p.0 + "\":" + amountBuf
         == before + (if more then "," else "") + Entry(p)
  {
    hide Amounts.SatsText;
  }

  lemma {:induction false} EntriesStep(payments: seq<Payment>, p: Payment)
    ensures "{" + Entries(payments + [p]) == "{" + Entries(payments) + (if payments == [] then "" else ",") + Entry(p)
  {
    hide Entry;
    assert (payments + [p])[..|payments|] == payments;
  }

  // Reading the amounts back, as whoever receives them does.

  function ReadEntries(text: string): Result<seq<(string, int)>>
    decreases |text|
  {
    if text == "" || text[0] != '"' then Err
    else
      var address, rest := Decimal.Before(text[1..], '"'), Decimal.After(text[1..], '"');
      if rest == "" || rest[0] != ':' then Err
      else
        var body := rest[1..];
        var sats :- Amounts.SatsOf(Decimal.Before(body, ','));
        if ',' !in body then Ok([(address, sats)])
        else
          var more :- ReadEntries(Decimal.After(body, ','));
          Ok([(address, sats)] + more)
  }

  function Recorded(payments: seq<Payment>): seq<(string, int)> {
    if payments == [] then [] else [(payments[0].0, PayoutSats(payments[0].1))] + Recorded(payments[1..])
  }

  lemma {:induction false} EntriesFront(payments: seq<Payment>)
    requires |payments| > 1
    ensures Entries(payments) == Entry(payments[0]) + "," + Entries(payments[1..])
  {
    hide Entry;
    var front, last := payments[..|payments| - 1], payments[|payments| - 1];
    if |payments| > 2 {
      EntriesFront(front);
      assert front[1..] == payments[1..][..|payments| - 2];
    } else {
      assert Entries(front) == Entry(payments[0]);
    }
  }

  lemma {:induction false} ValidIsPlain(a: string)
    requires IsValidDgbAddress(a)
    ensures '"' !in a
  {
    hide IsValidDgbAddress;
    AddressShape(a);
  }

  lemma {:induction false} SatsTextPlain(sats: nat)
    ensures ',' !in Amounts.SatsText(sats)
  {
    var w, f := Decimal.Text(sats / Amounts.COIN), Decimal.Padded(sats % Amounts.COIN, 8);
    hide Decimal.Text, Decimal.Padded;
    assert ',' !in w && ',' !in f;
  }

  lemma {:induction false} EntryParts(p: Payment, rest: string)
    ensures var text, body := Entry(p) + rest, Amounts.SatsText(PayoutSats(p.1)) + rest;
            text[0] == '"' && text[1..] == p.0 + ['"'] + (":" + body) && (":" + body)[1..] == body
  {
    hide Amounts.SatsText, PayoutSats;
  }

  function ReadBody(address: string, body: string): Result<seq<(string, int)>> {
    var sats :- Amounts.SatsOf(Decimal.Before(body, ','));
    if ',' !in body then Ok([(address, sats)])
    else
      var more :- ReadEntries(Decimal.After(body, ','));
      Ok([(address, sats)] + more)
  }

  lemma {:induction false} ReadEntry(p: Payment, rest: string)
    requires IsValidDgbAddress(p.0)
    ensures ReadEntries(Entry(p) + rest) == ReadBody(p.0, Amounts.SatsText(PayoutSats(p.1)) + rest)
  {
    var body := Amounts.SatsText(PayoutSats(p.1)) + rest;
    ValidIsPlain(p.0);
    EntryParts(p, rest);
    hide Decimal.Before, Decimal.After, Amounts.SatsText, Amounts.SatsOf, PayoutSats, IsValidDgbAddress, Entry;
    hide ReadEntries, ReadBody;
    Decimal.Cut(p.0, ":" + body, '"');
    EntryRead(Entry(p) + rest, p.0, body);
  }

  lemma EntryRead(text: string, address: string, body: string)
    requires text != "" && text[0] == '"' && Decimal.Before(text[1..], '"') == address
    requires Decimal.After(text[1..], '"') == ":" + body
    ensures ReadEntries(text) == ReadBody(address, body)
  {
    hide Decimal.Before, Decimal.After, Amounts.SatsOf;
    assert (":" + body)[1..] == body;
  }

  lemma {:induction false} ReadLast(p: Payment)
    requires IsValidDgbAddress(p.0) && PayoutSats(p.1) < Amounts.INT64
    ensures ReadEntries(Entry(p)) == Ok([(p.0, PayoutSats(p.1))])
  {
    hide ReadEntries, Decimal.Before, Decimal.After, Amounts.SatsText, Amounts.SatsOf, PayoutSats, IsValidDgbAddress;
    hide Entry;
    ReadEntry(p, "");
    assert Entry(p) + "" == Entry(p);
    var amount := Amounts.SatsText(PayoutSats(p.1));
    assert amount + "" == amount;
    SatsTextPlain(PayoutSats(p.1));
    Decimal.CutNone(amount, ',');
    Amounts.SatsRoundTrip(PayoutSats(p.1));
  }

  lemma {:induction false} ReadNext(p: Payment, more: string)
    requires IsValidDgbAddress(p.0) && PayoutSats(p.1) < Amounts.INT64 && ReadEntries(more).Ok?
    ensures ReadEntries(Entry(p) + ("," + more)) == Ok([(p.0, PayoutSats(p.1))] + ReadEntries(more).value)
  {
    hide ReadEntries, Decimal.Before, Decimal.After, Amounts.SatsText, Amounts.SatsOf, PayoutSats, IsValidDgbAddress;
    hide Entry;
    ReadEntry(p, "," + more);
    var amount := Amounts.SatsText(PayoutSats(p.1));
    SatsTextPlain(PayoutSats(p.1));
    Decimal.Cut(amount, more, ',');
    assert amount + ("," + more) == amount + [','] + more;
    Amounts.SatsRoundTrip(PayoutSats(p.1));
  }

  lemma {:induction false} EntriesOne(p: Payment)
    ensures Entries([p]) == Entry(p) && Recorded([p]) == [(p.0, PayoutSats(p.1))]
  {
    hide Entry;
    assert Recorded([p][1..]) == [];
  }

  /** Every payee receives in the text exactly the satoshis the ledger records for it. */
  lemma {:induction false} SentIsRecorded(payments: seq<Payment>)
    requires payments != [] && AllValid(payments)
    requires forall k :: 0 <= k < |payments| ==> PayoutSats(payments[k].1) < Amounts.INT64
    ensures ReadEntries(Entries(payments)) == Ok(Recorded(payments))
  {
    var p := payments[0];
    if |payments| == 1 {
      assert payments == [p];
      EntriesOne(p);
      hide ReadEntries, IsValidDgbAddress, PayoutSats, Entry, Entries, Recorded;
      ReadLast(p);
    } else {
      assert Recorded(payments) == [(p.0, PayoutSats(p.1))] + Recorded(payments[1..]);
      hide ReadEntries, IsValidDgbAddress, PayoutSats, Entry, Entries, Recorded;
      SentIsRecorded(payments[1..]);
      EntriesFront(payments);
      ReadNext(p, Entries(payments[1..]));
      Reassociated(Entry(p), Entries(payments[1..]));
    }
  }

  lemma {:induction false} Reassociated(a: string, b: string)
    ensures a + "," + b == a + ("," + b)
  {
  }
}
