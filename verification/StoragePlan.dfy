/** Who the pool pays for storage and for which files (pool/StoragePlan.h): a capped
    ranking of the nodes, and for each file a ranking of the paid nodes by a hash of
    file and node. The hash is a parameter; nothing here depends on its values. */
module StoragePlan {
  import opened Ranking

  datatype Config = Config(replicas: nat, maxPaidNodes: nat, legacyFactor: real, unknownSizeBytes: int)

  datatype Node = Node(peerId: string, reliability: real, coverage: real, proofScore: real,
                       proofAnswered: int, firstSeen: int)

  datatype Cid = Cid(cid: string, sizeBytes: int)

  datatype Weight = Weight(peerId: string, assignedBytes: int, assignedCids: nat, held: real, legacy: bool,
                           weight: real)

  datatype Rank = Rank(hash: nat, peerId: string)

  /** The order of std::string. */
  predicate TextLess(a: string, b: string) {
    if b == [] then false
    else if a == [] then true
    else if a[0] != b[0] then a[0] < b[0]
    else TextLess(a[1..], b[1..])
  }

  lemma {:induction false} TextAsymmetric(a: string, b: string)
    requires TextLess(a, b)
    ensures !TextLess(b, a)
  {
    if a != [] && a[0] == b[0] {
      TextAsymmetric(a[1..], b[1..]);
    }
  }

  lemma {:induction false} TextTransitive(a: string, b: string, c: string)
    requires TextLess(a, b) && TextLess(b, c)
    ensures TextLess(a, c)
  {
    if a != [] && a[0] == b[0] == c[0] {
      TextTransitive(a[1..], b[1..], c[1..]);
    }
  }

  lemma {:induction false} TextTotal(a: string, b: string)
    requires a != b
    ensures TextLess(a, b) || TextLess(b, a)
  {
    if a != [] && b != [] && a[0] == b[0] {
      assert a == [a[0]] + a[1..] && b == [b[0]] + b[1..];
      TextTotal(a[1..], b[1..]);
    }
  }

  /** The first text is the other's beginning, or has the smaller character where they first
      differ. */
  ghost predicate InFront(a: string, b: string) {
    exists k :: 0 <= k <= |a| && k <= |b| && a[..k] == b[..k] && k < |b| && (k == |a| || a[k] < b[k])
  }

  lemma {:induction false} TextLessIs(a: string, b: string)
    ensures TextLess(a, b) <==> InFront(a, b)
  {
    if a != [] && b != [] && a[0] == b[0] {
      TextLessIs(a[1..], b[1..]);
      if TextLess(a, b) {
        var k :| 0 <= k <= |a| - 1 && k <= |b| - 1 && a[1..][..k] == b[1..][..k]
                 && k < |b| - 1 && (k == |a| - 1 || a[1..][k] < b[1..][k]);
        assert a[..k + 1] == [a[0]] + a[1..][..k] && b[..k + 1] == [b[0]] + b[1..][..k];
        assert InFront(a, b);
      }
      if k :| 0 <= k <= |a| && k <= |b| && a[..k] == b[..k] && k < |b| && (k == |a| || a[k] < b[k]) {
        assert k > 0;
        assert a[1..][..k - 1] == a[..k][1..] && b[1..][..k - 1] == b[..k][1..];
        assert InFront(a[1..], b[1..]);
      }
    } else if a == [] && b != [] {
      assert a[..0] == b[..0];
    } else if a != [] && b != [] {
      assert a[..0] == b[..0];
      if k :| 0 < k <= |a| && k <= |b| && a[..k] == b[..k] {
        assert a[..k][0] == b[..k][0];
      }
    }
  }

  function Clamped(f: real): real {
    if f < 0.0 then 0.0 else if f > 1.0 then 1.0 else f
  }

  // pool/StoragePlan.h:97-100
  function HeldScore(n: Node, cfg: Config): real {
    if n.proofAnswered > 0 then n.proofScore else n.coverage * Clamped(cfg.legacyFactor)
  }

  predicate NodeBefore(a: Node, b: Node) {
    if a.reliability != b.reliability then a.reliability > b.reliability
    else if a.firstSeen != b.firstSeen then a.firstSeen < b.firstSeen
    else TextLess(a.peerId, b.peerId)
  }

  predicate RankBefore(a: Rank, b: Rank) {
    if a.hash != b.hash then a.hash > b.hash else TextLess(a.peerId, b.peerId)
  }

  lemma {:induction false} NodeOrder()
    ensures Strict(NodeBefore)
  {
    hide TextLess;
    forall x, y | NodeBefore(x, y)
      ensures !NodeBefore(y, x)
    {
      if TextLess(x.peerId, y.peerId) {
        TextAsymmetric(x.peerId, y.peerId);
      }
    }
    forall x, y, z | NodeBefore(x, y) && NodeBefore(y, z)
      ensures NodeBefore(x, z)
    {
      if TextLess(x.peerId, y.peerId) && TextLess(y.peerId, z.peerId) {
        TextTransitive(x.peerId, y.peerId, z.peerId);
      }
    }
  }

  lemma {:induction false} RankOrder()
    ensures Strict(RankBefore)
  {
    hide TextLess;
    forall x, y | RankBefore(x, y)
      ensures !RankBefore(y, x)
    {
      if TextLess(x.peerId, y.peerId) {
        TextAsymmetric(x.peerId, y.peerId);
      }
    }
    forall x, y, z | RankBefore(x, y) && RankBefore(y, z)
      ensures RankBefore(x, z)
    {
      if TextLess(x.peerId, y.peerId) && TextLess(y.peerId, z.peerId) {
        TextTransitive(x.peerId, y.peerId, z.peerId);
      }
    }
  }

  /** The table's primary key: no two nodes share a peer id. */
  ghost predicate Distinct(nodes: seq<Node>) {
    Comparable(nodes, OtherPeer)
  }

  predicate OtherPeer(a: Node, b: Node) {
    a.peerId != b.peerId
  }

  lemma {:induction false} NodesComparable(nodes: seq<Node>)
    requires Distinct(nodes)
    ensures Comparable(nodes, NodeBefore)
  {
    hide TextLess;
    forall i, j | 0 <= i < j < |nodes|
      ensures NodeBefore(nodes[i], nodes[j]) || NodeBefore(nodes[j], nodes[i])
    {
      TextTotal(nodes[i].peerId, nodes[j].peerId);
    }
  }

  // The paid set.

  predicate Eligible(n: Node, cfg: Config) {
    !(n.reliability <= 0.0 || HeldScore(n, cfg) <= 0.0)
  }

  function ShowsSomething(cfg: Config): Node -> bool {
    (n: Node) => Eligible(n, cfg)
  }

  function Shown(nodes: seq<Node>, cfg: Config): seq<Node> {
    Kept(nodes, ShowsSomething(cfg))
  }

  /** How many are paid; 0 in the configuration means no cap. */
  function Cap(nodes: seq<Node>, cfg: Config): nat {
    if cfg.maxPaidNodes > 0 then cfg.maxPaidNodes else |nodes|
  }

  function Paid(nodes: seq<Node>, cfg: Config): seq<Node> {
    Take(Sorted(Shown(nodes, cfg), NodeBefore), Cap(nodes, cfg))
  }

  // pool/StoragePlan.h:105-117
  method PaidSet(nodes: seq<Node>, cfg: Config) returns (paid: seq<Node>)
    ensures paid == Paid(nodes, cfg)
  {
    hide HeldScore, Sorted, NodeBefore;
    paid := [];
    for i := 0 to |nodes|
      invariant paid == Kept(nodes[..i], ShowsSomething(cfg))
    {
      assert nodes[..i + 1][..i] == nodes[..i];
      var n := nodes[i];
      var drop := n.reliability <= 0.0 || HeldScore(n, cfg) <= 0.0;
      if !drop {
        paid := paid + [n];
      }
    }
    assert nodes[..|nodes|] == nodes;
    paid := Sorted(paid, NodeBefore);
    if cfg.maxPaidNodes > 0 && |paid| > cfg.maxPaidNodes {
      paid := paid[..cfg.maxPaidNodes];
    }
  }

  lemma {:induction false} ShownComparable(nodes: seq<Node>, cfg: Config)
    requires Distinct(nodes)
    ensures Distinct(Shown(nodes, cfg)) && Comparable(Shown(nodes, cfg), NodeBefore)
  {
    hide NodeBefore, Kept, OtherPeer, Comparable;
    KeptIsPart(nodes, ShowsSomething(cfg));
    SubComparable(nodes, Shown(nodes, cfg), OtherPeer);
    NodesComparable(Shown(nodes, cfg));
  }

  lemma {:induction false} PaidDistinct(nodes: seq<Node>, cfg: Config)
    requires Distinct(nodes)
    ensures Distinct(Paid(nodes, cfg))
  {
    hide NodeBefore, Sorted, Take, OtherPeer, Comparable;
    ShownComparable(nodes, cfg);
    TakeIsPart(Sorted(Shown(nodes, cfg), NodeBefore), Cap(nodes, cfg));
    SubComparable(Shown(nodes, cfg), Paid(nodes, cfg), OtherPeer);
  }

  /** Something to show: reliability, and proofs passed where any were asked for, else
      coverage that counts for something. */
  lemma {:induction false} EligibleIs(n: Node, cfg: Config)
    ensures Eligible(n, cfg) <==>
            && n.reliability > 0.0
            && if n.proofAnswered > 0 then n.proofScore > 0.0 else n.coverage > 0.0 && cfg.legacyFactor > 0.0
  {
  }

  /** How surely a node holds its files: by its proofs alone once it has answered one, before
      that by its coverage, discounted by a factor that is kept between none and all of it. */
  lemma {:induction false} HeldScoreIs(n: Node, cfg: Config)
    ensures n.proofAnswered > 0 ==> HeldScore(n, cfg) == n.proofScore
    ensures n.proofAnswered <= 0 && cfg.legacyFactor <= 0.0 ==> HeldScore(n, cfg) == 0.0
    ensures n.proofAnswered <= 0 && cfg.legacyFactor >= 1.0 ==> HeldScore(n, cfg) == n.coverage
    ensures n.proofAnswered <= 0 && 0.0 <= cfg.legacyFactor <= 1.0 ==>
              HeldScore(n, cfg) == cfg.legacyFactor * n.coverage
    ensures 0.0 <= n.proofScore <= 1.0 && 0.0 <= n.coverage <= 1.0 ==> 0.0 <= HeldScore(n, cfg) <= 1.0
  {
    if 0.0 <= n.coverage <= 1.0 {
      Product01(n.coverage, Clamped(cfg.legacyFactor));
    }
  }

  lemma {:induction false} Product01(x: real, y: real)
    requires 0.0 <= x <= 1.0 && 0.0 <= y <= 1.0
    ensures 0.0 <= x * y <= 1.0
  {
    NotNegative(x, y);
    NotNegative(1.0 - x, y);
    Complement(x, y);
  }

  lemma {:induction false} NotNegative(a: real, b: real)
    requires a >= 0.0 && b >= 0.0
    ensures a * b >= 0.0
  {
  }

  lemma {:induction false} Complement(x: real, y: real)
    ensures (1.0 - x) * y == y - x * y
  {
  }

  /** Exactly the eligible nodes of the list that no more than the cap outrank: every paid
      node is an eligible one and at least as reliable as every eligible node left out, where
      those are equal no newer, and where those are equal too of the smaller peer id; slots
      stay empty only when there is nobody left to take them. */
  lemma {:induction false} PaidAreBest(nodes: seq<Node>, cfg: Config, n: Node)
    requires Distinct(nodes) && n in nodes && Eligible(n, cfg)
    ensures var paid := Paid(nodes, cfg);
            && (n !in paid ==> cfg.maxPaidNodes > 0 && |paid| == cfg.maxPaidNodes)
            && forall m :: m in paid ==>
                 && m in nodes && Eligible(m, cfg)
                 && (n !in paid ==>
                       && m.reliability >= n.reliability
                       && (m.reliability == n.reliability ==> m.firstSeen <= n.firstSeen)
                       && (m.reliability == n.reliability && m.firstSeen == n.firstSeen ==>
                             InFront(m.peerId, n.peerId)))
  {
    var paid := Paid(nodes, cfg);
    PaidFirst(nodes, cfg, n);
    hide Paid, Eligible, Distinct, TextLess, InFront;
    forall m | m in paid && n !in paid
      ensures m.reliability >= n.reliability
      ensures m.reliability == n.reliability ==> m.firstSeen <= n.firstSeen
      ensures m.reliability == n.reliability && m.firstSeen == n.firstSeen ==> InFront(m.peerId, n.peerId)
    {
      TextLessIs(m.peerId, n.peerId);
    }
  }

  lemma {:induction false} PaidFirst(nodes: seq<Node>, cfg: Config, n: Node)
    requires Distinct(nodes) && n in nodes && Eligible(n, cfg)
    ensures var paid := Paid(nodes, cfg);
            && (n !in paid ==> cfg.maxPaidNodes > 0 && |paid| == cfg.maxPaidNodes)
            && forall m :: m in paid ==> m in nodes && Eligible(m, cfg) && (n in paid || NodeBefore(m, n))
  {
    hide NodeBefore, Sorted, OtherPeer, HeldScore, Eligible, Kept;
    var shown, k := Shown(nodes, cfg), Cap(nodes, cfg);
    var paid := Paid(nodes, cfg);
    ShownComparable(nodes, cfg);
    NodeOrder();
    KeptPass(nodes, ShowsSomething(cfg), n);
    hide Comparable, Distinct, Strict;
    forall m | m in paid
      ensures m in nodes && Eligible(m, cfg) && (n in paid || NodeBefore(m, n))
    {
      assert m in multiset(Sorted(shown, NodeBefore));
      KeptPass(nodes, ShowsSomething(cfg), m);
      if n !in paid {
        ChosenFirst(shown, k, NodeBefore, m, n);
      }
    }
    if |shown| <= k {
      assert n in multiset(Sorted(shown, NodeBefore));
    }
  }

  /** The order the nodes were read in does not matter. */
  lemma {:induction false} PaidIgnoresOrder(a: seq<Node>, b: seq<Node>, cfg: Config)
    requires Distinct(a) && Distinct(b) && multiset(a) == multiset(b)
    ensures Paid(a, cfg) == Paid(b, cfg)
  {
    hide NodeBefore, Sorted, Take, OtherPeer, Comparable, Kept, Strict, Distinct;
    assert |multiset(a)| == |multiset(b)|;
    NodeOrder();
    ShownComparable(a, cfg);
    ShownComparable(b, cfg);
    KeptMultiset(a, b, ShowsSomething(cfg));
    SortIgnoresOrder(Shown(a, cfg), Shown(b, cfg), NodeBefore);
  }

  // Who keeps a file.

  function RankFor(hash: string -> nat, cid: string): Node -> Rank {
    (n: Node) => Rank(hash(cid + "|" + n.peerId), n.peerId)
  }

  function PeerOf(r: Rank): string {
    r.peerId
  }

  function Ranked(hash: string -> nat, cid: string, paid: seq<Node>): seq<Rank> {
    Mapped(paid, RankFor(hash, cid))
  }

  function Keepers(hash: string -> nat, cid: string, paid: seq<Node>, replicas: nat): (out: seq<string>)
    ensures |out| == if replicas <= |paid| then replicas else |paid|
  {
    Mapped(Take(Sorted(Ranked(hash, cid, paid), RankBefore), replicas), PeerOf)
  }

  // pool/StoragePlan.h:121-133
  method Assignees(hash: string -> nat, cid: string, paid: seq<Node>, replicas: nat) returns (out: seq<string>)
    ensures out == Keepers(hash, cid, paid, replicas)
  {
    hide Sorted, RankBefore;
    var ranked: seq<Rank> := [];
    for i := 0 to |paid|
      invariant ranked == Ranked(hash, cid, paid[..i])
    {
      assert paid[..i + 1][..i] == paid[..i];
      ranked := ranked + [Rank(hash(cid + "|" + paid[i].peerId), paid[i].peerId)];
    }
    assert paid[..|paid|] == paid;
    ranked := Sorted(ranked, RankBefore);
    out := [];
    var i := 0;
    while i < |ranked| && i < replicas
      invariant i <= |ranked| && i <= replicas
      invariant out == Mapped(ranked[..i], PeerOf)
    {
      assert ranked[..i + 1][..i] == ranked[..i];
      out := out + [ranked[i].peerId];
      i := i + 1;
    }
    assert ranked[..|ranked|] == ranked;
  }

  lemma {:induction false} RanksComparable(hash: string -> nat, cid: string, paid: seq<Node>)
    requires Distinct(paid)
    ensures Comparable(Ranked(hash, cid, paid), RankBefore)
  {
    var r := Ranked(hash, cid, paid);
    hide TextLess, Mapped;
    forall i, j | 0 <= i < j < |r|
      ensures RankBefore(r[i], r[j]) || RankBefore(r[j], r[i])
    {
      MappedAt(paid, RankFor(hash, cid), i);
      MappedAt(paid, RankFor(hash, cid), j);
      assert OtherPeer(paid[i], paid[j]) || OtherPeer(paid[j], paid[i]);
      TextTotal(r[i].peerId, r[j].peerId);
    }
  }

  lemma {:induction false} RankedIs(hash: string -> nat, cid: string, paid: seq<Node>)
    ensures forall r :: r in Ranked(hash, cid, paid) ==> r == Rank(hash(cid + "|" + r.peerId), r.peerId)
    ensures forall n :: n in paid ==> Rank(hash(cid + "|" + n.peerId), n.peerId) in Ranked(hash, cid, paid)
  {
    var r := Ranked(hash, cid, paid);
    hide Mapped;
    forall i | 0 <= i < |paid|
      ensures r[i] == Rank(hash(cid + "|" + paid[i].peerId), paid[i].peerId)
    {
      MappedAt(paid, RankFor(hash, cid), i);
    }
  }

  lemma {:induction false} KeptByRank(hash: string -> nat, cid: string, paid: seq<Node>, replicas: nat, peer: string)
    ensures peer in Keepers(hash, cid, paid, replicas) <==>
            Rank(hash(cid + "|" + peer), peer) in Take(Sorted(Ranked(hash, cid, paid), RankBefore), replicas)
  {
    var best := Take(Sorted(Ranked(hash, cid, paid), RankBefore), replicas);
    var rank := Rank(hash(cid + "|" + peer), peer);
    RankedIs(hash, cid, paid);
    TakeIsPart(Sorted(Ranked(hash, cid, paid), RankBefore), replicas);
    hide Mapped, Sorted, RankBefore, Take;
    forall i | 0 <= i < |best|
      ensures Mapped(best, PeerOf)[i] == best[i].peerId
      ensures best[i].peerId == peer ==> best[i] == rank
    {
      MappedAt(best, PeerOf, i);
      assert best[i] in multiset(best);
      assert best[i] in multiset(Ranked(hash, cid, paid));
    }
  }

  /** A file's keepers are the paid nodes with the highest hashes for it; where two are equal
      the smaller peer id goes first. */
  lemma {:induction false} KeepersAreBest(hash: string -> nat, cid: string, paid: seq<Node>, replicas: nat, m: Node,
                                          n: Node)
    requires Distinct(paid) && m in paid && n in paid
    requires m.peerId in Keepers(hash, cid, paid, replicas) && n.peerId !in Keepers(hash, cid, paid, replicas)
    ensures hash(cid + "|" + m.peerId) >= hash(cid + "|" + n.peerId)
    ensures hash(cid + "|" + m.peerId) == hash(cid + "|" + n.peerId) ==> InFront(m.peerId, n.peerId)
  {
    var a, b := Rank(hash(cid + "|" + m.peerId), m.peerId), Rank(hash(cid + "|" + n.peerId), n.peerId);
    KeptByRank(hash, cid, paid, replicas, m.peerId);
    KeptByRank(hash, cid, paid, replicas, n.peerId);
    RankedIs(hash, cid, paid);
    RanksComparable(hash, cid, paid);
    RankOrder();
    TextLessIs(m.peerId, n.peerId);
    hide Sorted, Take, Keepers, Ranked, Strict, Comparable, TextLess, InFront, Distinct;
    ChosenFirst(Ranked(hash, cid, paid), replicas, RankBefore, a, b);
  }

  /** A file's keepers depend on who is paid, not on their order. */
  lemma {:induction false} KeepersIgnoreOrder(hash: string -> nat, cid: string, a: seq<Node>, b: seq<Node>,
                                              replicas: nat)
    requires Distinct(a) && Distinct(b) && multiset(a) == multiset(b)
    ensures Keepers(hash, cid, a, replicas) == Keepers(hash, cid, b, replicas)
  {
    hide RankBefore, Sorted, Mapped, Comparable, Strict, Distinct;
    RankOrder();
    RanksComparable(hash, cid, a);
    RanksComparable(hash, cid, b);
    MappedMultiset(a, b, RankFor(hash, cid));
    SortIgnoresOrder(Ranked(hash, cid, a), Ranked(hash, cid, b), RankBefore);
  }

  /** One node more is paid: a file's keepers stay, in the same order, unless the new
      node becomes one of them, and then at most one of the others gives way. */
  lemma {:induction false} NodeJoins(hash: string -> nat, cid: string, n: Node, a: seq<Node>, b: seq<Node>,
                                     replicas: nat)
    requires Distinct(b) && multiset(b) == multiset(a) + multiset{n}
    ensures var before, after := Keepers(hash, cid, a, replicas), Keepers(hash, cid, b, replicas);
            after == before || OneEnters(before, after, n.peerId, replicas)
  {
    hide RankBefore, Sorted, Comparable, Strict, Distinct, OneEnters, Mapped, Take;
    RankOrder();
    RanksComparable(hash, cid, b);
    DistinctPart(b, a);
    RanksComparable(hash, cid, a);
    MappedOneMore(a, b, n, RankFor(hash, cid));
    var x := RankFor(hash, cid)(n);
    OneMore(x, Ranked(hash, cid, a), Ranked(hash, cid, b), replicas, RankBefore);
    var best, best' := Take(Sorted(Ranked(hash, cid, a), RankBefore), replicas),
                       Take(Sorted(Ranked(hash, cid, b), RankBefore), replicas);
    if best' != best {
      MappedEnters(best, best', x, replicas, PeerOf);
    }
  }

  lemma {:induction false} DistinctPart(s: seq<Node>, t: seq<Node>)
    requires Distinct(s) && multiset(t) <= multiset(s)
    ensures Distinct(t)
  {
    hide Comparable, OtherPeer;
    SubComparable(s, t, OtherPeer);
  }

  /** One node fewer is paid: files it did not keep are kept by the same nodes in the
      same order, and the others keep all their other keepers. */
  lemma {:induction false} NodeLeaves(hash: string -> nat, cid: string, n: Node, a: seq<Node>, b: seq<Node>,
                                      replicas: nat)
    requires Distinct(a) && multiset(a) == multiset(b) + multiset{n}
    ensures var before, after := Keepers(hash, cid, a, replicas), Keepers(hash, cid, b, replicas);
            if n.peerId in before then multiset(before) - multiset{n.peerId} <= multiset(after) else after == before
  {
    hide Distinct, Keepers, OneEnters;
    NodeJoins(hash, cid, n, b, a, replicas);
    var before, after := Keepers(hash, cid, a, replicas), Keepers(hash, cid, b, replicas);
    if before != after {
      EnteredRest(after, before, n.peerId, replicas);
    }
  }

  /** With unlike peers in the list, one node in another's place moves one copy at most. */
  lemma {:induction false} NodeReplaced(hash: string -> nat, cid: string, rest: seq<Node>, m: Node, n: Node,
                     a: seq<Node>, b: seq<Node>, replicas: nat)
    requires Distinct(a) && Distinct(b)
    requires multiset(a) == multiset(rest) + multiset{m} && multiset(b) == multiset(rest) + multiset{n}
    ensures AtMostOneMoves(Keepers(hash, cid, a, replicas), Keepers(hash, cid, b, replicas))
  {
    hide RankBefore, Sorted, Comparable, Strict, Distinct, AtMostOneMoves, Mapped, Take;
    RankOrder();
    RanksComparable(hash, cid, a);
    RanksComparable(hash, cid, b);
    var f := RankFor(hash, cid);
    MappedOneMore(rest, a, m, f);
    MappedOneMore(rest, b, n, f);
    OneForAnother(Mapped(rest, f), f(m), f(n), Mapped(a, f), Mapped(b, f), replicas, RankBefore, PeerOf);
  }

  /** One candidate more for the paid set, whether it takes a free slot, pushes out the
      last paid node or is not paid at all: every file loses at most one keeper and gains
      at most one. */
  lemma {:induction false} CandidateJoins(hash: string -> nat, cid: string, n: Node, a: seq<Node>, b: seq<Node>,
                                          cfg: Config, replicas: nat)
    requires Distinct(b) && multiset(b) == multiset(a) + multiset{n}
    ensures AtMostOneMoves(Keepers(hash, cid, Paid(a, cfg), replicas), Keepers(hash, cid, Paid(b, cfg), replicas))
    ensures n !in Paid(b, cfg) ==> Paid(b, cfg) == Paid(a, cfg)
  {
    hide Distinct, Keepers, OneEnters, AtMostOneMoves, Paid;
    DistinctPart(b, a);
    PaidOneMore(n, a, b, cfg);
    var before, after := Paid(a, cfg), Paid(b, cfg);
    PaidDistinct(a, cfg);
    PaidDistinct(b, cfg);
    if before == after {
      NoneMove(Keepers(hash, cid, before, replicas));
    } else {
      var k := Slots(b, cfg);
      EnteredRest(before, after, n, k);
      FullOrNot(before, after, n, k);
      if |before| < k {
        NodeJoins(hash, cid, n, before, after, replicas);
        if Keepers(hash, cid, before, replicas) == Keepers(hash, cid, after, replicas) {
          NoneMove(Keepers(hash, cid, before, replicas));
        } else {
          EntryMovesOne(Keepers(hash, cid, before, replicas), Keepers(hash, cid, after, replicas), n.peerId, replicas);
        }
      } else {
        assert before == before[..k - 1] + [before[k - 1]];
        NodeReplaced(hash, cid, before[..k - 1], before[k - 1], n, before, after, replicas);
      }
    }
  }

  /** Slots enough for all of a list when there is no cap. */
  function Slots(nodes: seq<Node>, cfg: Config): nat {
    if cfg.maxPaidNodes > 0 then cfg.maxPaidNodes else |nodes| + 1
  }

  lemma {:induction false} PaidWithSlots(a: seq<Node>, b: seq<Node>, cfg: Config)
    requires |a| <= |b|
    ensures Paid(a, cfg) == Take(Sorted(Shown(a, cfg), NodeBefore), Slots(b, cfg))
  {
    hide NodeBefore, Sorted, Kept, HeldScore;
    assert |Shown(a, cfg)| <= |a|;
  }

  lemma {:induction false} PaidOneMore(n: Node, a: seq<Node>, b: seq<Node>, cfg: Config)
    requires Distinct(b) && multiset(b) == multiset(a) + multiset{n}
    ensures Paid(b, cfg) == Paid(a, cfg) || OneEnters(Paid(a, cfg), Paid(b, cfg), n, Slots(b, cfg))
    ensures |Paid(a, cfg)| <= Slots(b, cfg)
  {
    hide NodeBefore, Sorted, Comparable, Strict, Distinct, OneEnters, Kept, HeldScore;
    assert |multiset(b)| == |multiset(a)| + 1;
    DistinctPart(b, a);
    ShownComparable(a, cfg);
    ShownComparable(b, cfg);
    NodeOrder();
    KeptOneMore(a, b, n, ShowsSomething(cfg));
    if Eligible(n, cfg) {
      assert OneIf(n, ShowsSomething(cfg)) == [n];
      PaidWithSlots(a, b, cfg);
      PaidWithSlots(b, b, cfg);
      OneMore(n, Shown(a, cfg), Shown(b, cfg), Slots(b, cfg), NodeBefore);
    } else {
      assert multiset(Shown(b, cfg)) == multiset(Shown(a, cfg));
      SortIgnoresOrder(Shown(a, cfg), Shown(b, cfg), NodeBefore);
    }
  }

  lemma {:induction false} NoneMove(s: seq<string>)
    ensures AtMostOneMoves(s, s)
  {
    assert multiset(s) - multiset(s) == multiset{};
  }

  lemma EntriesAtMost(before: seq<string>, after: seq<string>, x: string, k: nat)
    requires OneEnters(before, after, x, k) && |before| <= k
    ensures k > 0 && |after| <= |Take(before, k - 1)| + 1
  {
  }

  lemma {:induction false} EntryMovesOne(before: seq<string>, after: seq<string>, x: string, k: nat)
    requires OneEnters(before, after, x, k) && |before| <= k
    ensures AtMostOneMoves(before, after)
  {
    EntriesAtMost(before, after, x, k);
    CoreInserted(before, after, x, k);
    TakeIsPart(before, k - 1);
    hide OneEnters, AtMostOneMoves;
    CommonCore(Take(before, k - 1), before, after);
  }

  // What each paid node is owed.

  function CidBytes(c: Cid, cfg: Config): int {
    if c.sizeBytes > 0 then c.sizeBytes else cfg.unknownSizeBytes
  }

  function Copies(cfg: Config): nat {
    if cfg.replicas == 0 then 1 else cfg.replicas
  }

  /** amount once for every time peer is listed. */
  function Share(listed: seq<string>, peer: string, amount: int): int {
    if listed == [] then 0
    else Share(listed[..|listed| - 1], peer, amount) + (if listed[|listed| - 1] == peer then amount else 0)
  }

  function Credit(hash: string -> nat, cids: seq<Cid>, paid: seq<Node>, cfg: Config, peer: string): int {
    if cids == [] then 0
    else
      var c := cids[|cids| - 1];
      Credit(hash, cids[..|cids| - 1], paid, cfg, peer)
      + Share(Keepers(hash, c.cid, paid, Copies(cfg)), peer, CidBytes(c, cfg))
  }

  function CreditedFiles(hash: string -> nat, cids: seq<Cid>, paid: seq<Node>, cfg: Config, peer: string): int {
    if cids == [] then 0
    else
      var c := cids[|cids| - 1];
      CreditedFiles(hash, cids[..|cids| - 1], paid, cfg, peer) + Share(Keepers(hash, c.cid, paid, Copies(cfg)), peer, 1)
  }

  predicate Assigned(hash: string -> nat, cid: string, peerId: string, paid: seq<Node>, replicas: nat) {
    peerId in Keepers(hash, cid, paid, if replicas == 0 then 1 else replicas)
  }

  // pool/StoragePlan.h:166-172
  method IsAssigned(hash: string -> nat, cid: string, peerId: string, paid: seq<Node>, replicas: nat) returns (r: bool)
    ensures r == Assigned(hash, cid, peerId, paid, replicas)
  {
    hide Keepers;
    var keepers := Assignees(hash, cid, paid, if replicas == 0 then 1 else replicas);
    for i := 0 to |keepers|
      invariant peerId !in keepers[..i]
    {
      if keepers[i] == peerId {
        return true;
      }
    }
    assert keepers[..|keepers|] == keepers;
    return false;
  }

  lemma {:induction false} PeersPaid(hash: string -> nat, cid: string, paid: seq<Node>, replicas: nat, peer: string)
    requires peer in Keepers(hash, cid, paid, replicas)
    ensures exists i :: 0 <= i < |paid| && paid[i].peerId == peer
  {
    hide RankBefore, Sorted, Mapped;
    var best := Take(Sorted(Ranked(hash, cid, paid), RankBefore), replicas);
    var i :| 0 <= i < |best| && Mapped(best, PeerOf)[i] == peer;
    MappedAt(best, PeerOf, i);
    TakeIsPart(Sorted(Ranked(hash, cid, paid), RankBefore), replicas);
    assert best[i] in multiset(best);
    assert best[i] in Ranked(hash, cid, paid);
    var j :| 0 <= j < |paid| && Ranked(hash, cid, paid)[j] == best[i];
    MappedAt(paid, RankFor(hash, cid), j);
  }

  predicate OtherRankPeer(a: Rank, b: Rank) {
    a.peerId != b.peerId
  }

  ghost predicate AllAmong(listed: seq<string>, nodes: seq<Node>) {
    forall k :: 0 <= k < |listed| ==> exists i :: 0 <= i < |nodes| && nodes[i].peerId == listed[k]
  }

  /** Each file goes to min(replicas, paid nodes) nodes, all paid, no node twice. */
  lemma {:induction false} KeepersApart(hash: string -> nat, cid: string, paid: seq<Node>, replicas: nat)
    requires Distinct(paid)
    ensures var keepers := Keepers(hash, cid, paid, replicas);
            && |keepers| == (if replicas <= |paid| then replicas else |paid|)
            && AllAmong(keepers, paid)
            && forall i, j :: 0 <= i < j < |keepers| ==> keepers[i] != keepers[j]
  {
    var keepers := Keepers(hash, cid, paid, replicas);
    forall k | 0 <= k < |keepers|
      ensures exists i :: 0 <= i < |paid| && paid[i].peerId == keepers[k]
    {
      PeersPaid(hash, cid, paid, replicas, keepers[k]);
    }
    var ranked := Ranked(hash, cid, paid);
    var best := Take(Sorted(ranked, RankBefore), replicas);
    assert Comparable(best, OtherRankPeer) by {
      PeersApart(hash, cid, paid);
      hide Sorted, RankBefore;
      TakeIsPart(Sorted(ranked, RankBefore), replicas);
      SubComparable(ranked, best, OtherRankPeer);
    }
    hide Mapped, Sorted, RankBefore, Take;
    forall i, j | 0 <= i < j < |keepers|
      ensures keepers[i] != keepers[j]
    {
      MappedAt(best, PeerOf, i);
      MappedAt(best, PeerOf, j);
    }
  }

  lemma {:induction false} PeersApart(hash: string -> nat, cid: string, paid: seq<Node>)
    requires Distinct(paid)
    ensures Comparable(Ranked(hash, cid, paid), OtherRankPeer)
  {
    hide Mapped;
    var r := Ranked(hash, cid, paid);
    forall i, j | 0 <= i < j < |r|
      ensures OtherRankPeer(r[i], r[j])
    {
      MappedAt(paid, RankFor(hash, cid), i);
      MappedAt(paid, RankFor(hash, cid), j);
      assert OtherPeer(paid[i], paid[j]) || OtherPeer(paid[j], paid[i]);
    }
  }

  /** Among peers listed once, a share is all or nothing. */
  lemma {:induction false} ShareOnce(listed: seq<string>, peer: string, amount: int)
    requires forall i, j :: 0 <= i < j < |listed| ==> listed[i] != listed[j]
    ensures Share(listed, peer, amount) == if peer in listed then amount else 0
  {
    if listed != [] {
      ShareOnce(listed[..|listed| - 1], peer, amount);
      assert listed == listed[..|listed| - 1] + [listed[|listed| - 1]];
    }
  }

  function AssignedBytes(hash: string -> nat, cids: seq<Cid>, paid: seq<Node>, cfg: Config, peer: string): int {
    if cids == [] then 0
    else
      var c := cids[|cids| - 1];
      AssignedBytes(hash, cids[..|cids| - 1], paid, cfg, peer)
      + if Assigned(hash, c.cid, peer, paid, cfg.replicas) then CidBytes(c, cfg) else 0
  }

  function AssignedFiles(hash: string -> nat, cids: seq<Cid>, paid: seq<Node>, cfg: Config, peer: string): nat {
    if cids == [] then 0
    else
      var c := cids[|cids| - 1];
      AssignedFiles(hash, cids[..|cids| - 1], paid, cfg, peer)
      + if Assigned(hash, c.cid, peer, paid, cfg.replicas) then 1 else 0
  }

  /** A node is credited with a file exactly when isAssigned says the file is its own. */
  lemma {:induction false} CreditedIsAssigned(hash: string -> nat, cids: seq<Cid>, paid: seq<Node>, cfg: Config,
                                              peer: string)
    requires Distinct(paid)
    ensures Credit(hash, cids, paid, cfg, peer) == AssignedBytes(hash, cids, paid, cfg, peer)
    ensures CreditedFiles(hash, cids, paid, cfg, peer) == AssignedFiles(hash, cids, paid, cfg, peer)
  {
    hide Keepers, Distinct, Share, CidBytes;
    if cids != [] {
      var c := cids[|cids| - 1];
      CreditedIsAssigned(hash, cids[..|cids| - 1], paid, cfg, peer);
      KeepersApart(hash, c.cid, paid, Copies(cfg));
      ShareOnce(Keepers(hash, c.cid, paid, Copies(cfg)), peer, CidBytes(c, cfg));
      ShareOnce(Keepers(hash, c.cid, paid, Copies(cfg)), peer, 1);
    }
  }

  /** What one more file adds for a peer: its measured size, or what an unmeasured file
      counts, where the peer keeps it; no replicas configured count as one. */
  lemma {:induction false} OneFileMore(hash: string -> nat, cids: seq<Cid>, c: Cid, paid: seq<Node>, cfg: Config,
                                       peer: string)
    ensures var kept := peer in Keepers(hash, c.cid, paid, if cfg.replicas > 0 then cfg.replicas else 1);
            && AssignedBytes(hash, cids + [c], paid, cfg, peer)
               == AssignedBytes(hash, cids, paid, cfg, peer)
                  + (if !kept then 0 else if c.sizeBytes <= 0 then cfg.unknownSizeBytes else c.sizeBytes)
            && AssignedFiles(hash, cids + [c], paid, cfg, peer)
               == AssignedFiles(hash, cids, paid, cfg, peer) + (if kept then 1 else 0)
    ensures AssignedBytes(hash, [], paid, cfg, peer) == 0 == AssignedFiles(hash, [], paid, cfg, peer)
  {
    hide Keepers;
    assert (cids + [c])[..|cids|] == cids;
  }

  // Conservation.

  function TotalBytes(cids: seq<Cid>, cfg: Config): int {
    if cids == [] then 0 else TotalBytes(cids[..|cids| - 1], cfg) + CidBytes(cids[|cids| - 1], cfg)
  }

  function SharesOf(listed: seq<string>, nodes: seq<Node>, amount: int): int {
    if nodes == [] then 0
    else SharesOf(listed, nodes[..|nodes| - 1], amount) + Share(listed, nodes[|nodes| - 1].peerId, amount)
  }

  function CreditsOf(hash: string -> nat, cids: seq<Cid>, paid: seq<Node>, cfg: Config, nodes: seq<Node>): int {
    if nodes == [] then 0
    else
      CreditsOf(hash, cids, paid, cfg, nodes[..|nodes| - 1])
      + Credit(hash, cids, paid, cfg, nodes[|nodes| - 1].peerId)
  }

  /** Among distinct nodes each listed peer takes one share. */
  lemma {:induction false} SharesAddUp(listed: seq<string>, nodes: seq<Node>, amount: int)
    requires Distinct(nodes)
    requires AllAmong(listed, nodes)
    ensures SharesOf(listed, nodes, amount) == |listed| * amount
  {
    if listed == [] {
      SharesOfNone(nodes, amount);
    } else {
      var front, peer := listed[..|listed| - 1], listed[|listed| - 1];
      SharesAddUp(front, nodes, amount);
      var i :| 0 <= i < |nodes| && nodes[i].peerId == peer;
      hide Share;
      SharesOneMore(front, peer, nodes, amount, i);
      assert listed == front + [peer];
      OneMoreTimes(|front|, amount);
    }
  }

  lemma OneMoreTimes(n: nat, amount: int)
    ensures (n + 1) * amount == n * amount + amount
  {
  }

  lemma {:induction false} SharesOfNone(nodes: seq<Node>, amount: int)
    ensures SharesOf([], nodes, amount) == 0
  {
    if nodes != [] {
      SharesOfNone(nodes[..|nodes| - 1], amount);
    }
  }

  lemma {:induction false} ShareStep(listed: seq<string>, last: string, peer: string, amount: int)
    ensures Share(listed + [last], peer, amount) == Share(listed, peer, amount) + if last == peer then amount else 0
  {
    assert (listed + [last])[..|listed|] == listed;
  }

  lemma {:induction false} SharesOneMore(listed: seq<string>, peer: string, nodes: seq<Node>, amount: int, i: nat)
    requires Distinct(nodes) && i <= |nodes| && (i < |nodes| ==> nodes[i].peerId == peer)
    requires forall j :: 0 <= j < |nodes| && j != i ==> nodes[j].peerId != peer
    ensures SharesOf(listed + [peer], nodes, amount)
         == SharesOf(listed, nodes, amount) + if i < |nodes| then amount else 0
  {
    hide Share;
    if nodes != [] {
      var front := nodes[..|nodes| - 1];
      SharesOneMore(listed, peer, front, amount, if i < |front| then i else |front|);
      ShareStep(listed, peer, nodes[|nodes| - 1].peerId, amount);
    }
  }

  lemma {:induction false} CreditsStep(hash: string -> nat, cids: seq<Cid>, paid: seq<Node>, cfg: Config,
                                       nodes: seq<Node>)
    requires cids != []
    ensures var c := cids[|cids| - 1];
            var shares := SharesOf(Keepers(hash, c.cid, paid, Copies(cfg)), nodes, CidBytes(c, cfg));
            CreditsOf(hash, cids, paid, cfg, nodes) == CreditsOf(hash, cids[..|cids| - 1], paid, cfg, nodes) + shares
  {
    hide Share, Keepers, CidBytes;
    if nodes != [] {
      CreditsStep(hash, cids, paid, cfg, nodes[..|nodes| - 1]);
    } else {
      assert CreditsOf(hash, cids, paid, cfg, nodes) == 0;
    }
  }

  function PaidCopies(paid: seq<Node>, cfg: Config): nat {
    if Copies(cfg) <= |paid| then Copies(cfg) else |paid|
  }

  /** All that is credited is every file, once for each of its paid copies. */
  lemma {:induction false} Conservation(hash: string -> nat, cids: seq<Cid>, paid: seq<Node>, cfg: Config)
    requires Distinct(paid)
    ensures CreditsOf(hash, cids, paid, cfg, paid) == PaidCopies(paid, cfg) * TotalBytes(cids, cfg)
  {
    hide Share, Keepers, CidBytes, CreditsOf, SharesOf, Distinct, AllAmong;
    if cids == [] {
      CreditsOfNothing(hash, paid, cfg, paid);
    } else {
      var front, c := cids[..|cids| - 1], cids[|cids| - 1];
      Conservation(hash, front, paid, cfg);
      CreditsStep(hash, cids, paid, cfg, paid);
      KeepersApart(hash, c.cid, paid, Copies(cfg));
      SharesAddUp(Keepers(hash, c.cid, paid, Copies(cfg)), paid, CidBytes(c, cfg));
      Distribute(PaidCopies(paid, cfg), TotalBytes(front, cfg), CidBytes(c, cfg));
    }
  }

  lemma Distribute(n: nat, a: int, b: int)
    ensures n * (a + b) == n * a + n * b
  {
  }

  lemma {:induction false} CreditsOfNothing(hash: string -> nat, paid: seq<Node>, cfg: Config, nodes: seq<Node>)
    ensures CreditsOf(hash, [], paid, cfg, nodes) == 0
  {
    if nodes != [] {
      CreditsOfNothing(hash, paid, cfg, nodes[..|nodes| - 1]);
    }
  }

  // The loop that fills the table of weights.

  function SumBytes(ws: seq<Weight>): int {
    if ws == [] then 0 else SumBytes(ws[..|ws| - 1]) + ws[|ws| - 1].assignedBytes
  }

  /** The row of a node after some files. */
  ghost predicate RowOf(w: Weight, n: Node, cfg: Config, bytes: int, files: int) {
    && w.peerId == n.peerId && w.held == HeldScore(n, cfg) && w.legacy == (n.proofAnswered == 0)
    && w.assignedBytes == bytes && w.assignedCids == files
  }

  method EmptyRows(paid: seq<Node>, cfg: Config) returns (byPeer: map<string, Weight>)
    requires Distinct(paid)
    ensures forall n :: n in paid ==> n.peerId in byPeer && RowOf(byPeer[n.peerId], n, cfg, 0, 0)
  {
    hide HeldScore;
    byPeer := map[];
    for i := 0 to |paid|
      invariant forall k :: 0 <= k < i ==> paid[k].peerId in byPeer && RowOf(byPeer[paid[k].peerId], paid[k], cfg, 0, 0)
    {
      var n := paid[i];
      assert forall k :: 0 <= k < i ==> OtherPeer(paid[k], n) || OtherPeer(n, paid[k]);
      byPeer := byPeer[n.peerId := Weight(n.peerId, 0, 0, HeldScore(n, cfg), n.proofAnswered == 0, 0.0)];
    }
  }

  /** The same row with more assigned to it. */
  ghost predicate Raised(after: Weight, w: Weight, bytes: int, files: int) {
    && after.peerId == w.peerId && after.held == w.held && after.legacy == w.legacy
    && after.assignedBytes == w.assignedBytes + bytes && after.assignedCids == w.assignedCids + files
  }

  /** One file: its size to the row of each of its keepers. */
  method AddFile(byPeer: map<string, Weight>, keepers: seq<string>, bytes: int) returns (after: map<string, Weight>)
    requires forall k :: 0 <= k < |keepers| ==> keepers[k] in byPeer
    ensures after.Keys == byPeer.Keys
    ensures forall p :: p in byPeer ==> Raised(after[p], byPeer[p], Share(keepers, p, bytes), Share(keepers, p, 1))
  {
    after := byPeer;
    for i := 0 to |keepers|
      invariant after.Keys == byPeer.Keys
      invariant forall p :: p in byPeer ==>
                              Raised(after[p], byPeer[p], Share(keepers[..i], p, bytes), Share(keepers[..i], p, 1))
    {
      var peer := keepers[i];
      assert keepers[..i + 1] == keepers[..i] + [peer];
      forall p | p in byPeer
        ensures Share(keepers[..i + 1], p, bytes) == Share(keepers[..i], p, bytes) + if peer == p then bytes else 0
        ensures Share(keepers[..i + 1], p, 1) == Share(keepers[..i], p, 1) + if peer == p then 1 else 0
      {
        ShareStep(keepers[..i], peer, p, bytes);
        ShareStep(keepers[..i], peer, p, 1);
      }
      hide Share;
      after := after[peer := after[peer].(assignedBytes := after[peer].assignedBytes + bytes,
                                          assignedCids := after[peer].assignedCids + 1)];
    }
    assert keepers[..|keepers|] == keepers;
  }

  /** The row of a node after all files: what isAssigned gives it, and the weight made of it. */
  ghost predicate Settled(w: Weight, hash: string -> nat, cids: seq<Cid>, paid: seq<Node>, cfg: Config, n: Node) {
    && RowOf(w, n, cfg, AssignedBytes(hash, cids, paid, cfg, n.peerId), AssignedFiles(hash, cids, paid, cfg, n.peerId))
    && w.weight == w.assignedBytes as real * w.held * n.reliability
  }

  method Rows(byPeer: map<string, Weight>, hash: string -> nat, cids: seq<Cid>, paid: seq<Node>, cfg: Config)
    returns (out: seq<Weight>)
    requires Distinct(paid) && Filled(byPeer, hash, cids, paid, cfg)
    ensures |out| == |paid|
    ensures forall k :: 0 <= k < |out| ==> out[k].assignedBytes == Credit(hash, cids, paid, cfg, paid[k].peerId)
    ensures forall k :: 0 <= k < |out| ==> Settled(out[k], hash, cids, paid, cfg, paid[k])
  {
    hide Credit, CreditedFiles, AssignedBytes, AssignedFiles, Distinct, HeldScore;
    out := [];
    for i := 0 to |paid|
      invariant |out| == i
      invariant forall k :: 0 <= k < i ==> out[k].assignedBytes == Credit(hash, cids, paid, cfg, paid[k].peerId)
      invariant forall k :: 0 <= k < i ==> Settled(out[k], hash, cids, paid, cfg, paid[k])
    {
      var w := byPeer[paid[i].peerId];
      CreditedIsAssigned(hash, cids, paid, cfg, paid[i].peerId);
      out := out + [w.(weight := w.assignedBytes as real * w.held * paid[i].reliability)];
      assert Settled(out[i], hash, cids, paid, cfg, paid[i]);
    }
  }

  // pool/StoragePlan.h:136-162
  /** Every paid node's row: the bytes and the number of exactly the files isAssigned
      says are its own. Together the rows hold every byte once for each paid copy. */
  method Weights(hash: string -> nat, nodes: seq<Node>, cids: seq<Cid>, cfg: Config) returns (out: seq<Weight>)
    requires Distinct(nodes)
    ensures var paid := Paid(nodes, cfg);
            && |out| == |paid|
            && (forall i :: 0 <= i < |paid| ==> Settled(out[i], hash, cids, paid, cfg, paid[i]))
            && SumBytes(out) == PaidCopies(paid, cfg) * TotalBytes(cids, cfg)
  {
    hide Share, Keepers, CidBytes, Paid, Distinct, RowOf, HeldScore, Settled, Credit, Filled;
    var paid := PaidSet(nodes, cfg);
    PaidDistinct(nodes, cfg);
    var byPeer := EmptyRows(paid, cfg);
    FilledNothing(byPeer, hash, paid, cfg);
    assert cids[..0] == [];
    for i := 0 to |cids|
      invariant Filled(byPeer, hash, cids[..i], paid, cfg)
    {
      var c := cids[i];
      var keepers := Assignees(hash, c.cid, paid, Copies(cfg));
      KeepersApart(hash, c.cid, paid, Copies(cfg));
      PeerHasRow(byPeer, hash, cids[..i], paid, cfg, keepers);
      var after := AddFile(byPeer, keepers, CidBytes(c, cfg));
      FilledStep(byPeer, after, hash, cids[..i], c, paid, cfg);
      assert cids[..i + 1] == cids[..i] + [c];
      byPeer := after;
    }
    assert cids[..|cids|] == cids;
    out := Rows(byPeer, hash, cids, paid, cfg);
    CreditsAreRows(hash, cids, paid, cfg, paid, out);
    Conservation(hash, cids, paid, cfg);
  }

  ghost predicate Filled(byPeer: map<string, Weight>, hash: string -> nat, cids: seq<Cid>, paid: seq<Node>,
                         cfg: Config)
  {
    forall n :: n in paid ==>
                  && n.peerId in byPeer
                  && RowOf(byPeer[n.peerId], n, cfg, Credit(hash, cids, paid, cfg, n.peerId),
                           CreditedFiles(hash, cids, paid, cfg, n.peerId))
  }

  lemma FilledNothing(byPeer: map<string, Weight>, hash: string -> nat, paid: seq<Node>, cfg: Config)
    requires forall n :: n in paid ==> n.peerId in byPeer && RowOf(byPeer[n.peerId], n, cfg, 0, 0)
    ensures Filled(byPeer, hash, [], paid, cfg)
  {
  }

  lemma PeerHasRow(byPeer: map<string, Weight>, hash: string -> nat, cids: seq<Cid>, paid: seq<Node>, cfg: Config,
                   keepers: seq<string>)
    requires Filled(byPeer, hash, cids, paid, cfg) && AllAmong(keepers, paid)
    ensures forall k :: 0 <= k < |keepers| ==> keepers[k] in byPeer
  {
  }

  lemma {:induction false} FilledStep(byPeer: map<string, Weight>, after: map<string, Weight>, hash: string -> nat,
                   cids: seq<Cid>, c: Cid, paid: seq<Node>, cfg: Config)
    requires Filled(byPeer, hash, cids, paid, cfg)
    requires after.Keys == byPeer.Keys
    requires var keepers := Keepers(hash, c.cid, paid, Copies(cfg));
             forall p :: p in byPeer ==>
                           Raised(after[p], byPeer[p], Share(keepers, p, CidBytes(c, cfg)), Share(keepers, p, 1))
    ensures Filled(after, hash, cids + [c], paid, cfg)
  {
    hide Share, Keepers, CidBytes, HeldScore;
    assert (cids + [c])[..|cids|] == cids;
  }

  lemma {:induction false} CreditsAreRows(hash: string -> nat, cids: seq<Cid>, paid: seq<Node>, cfg: Config,
                                          nodes: seq<Node>, out: seq<Weight>)
    requires |out| == |nodes|
    requires forall k :: 0 <= k < |out| ==> out[k].assignedBytes == Credit(hash, cids, paid, cfg, nodes[k].peerId)
    ensures SumBytes(out) == CreditsOf(hash, cids, paid, cfg, nodes)
  {
    hide Credit;
    if out != [] {
      CreditsAreRows(hash, cids, paid, cfg, nodes[..|nodes| - 1], out[..|out| - 1]);
    }
  }
}
