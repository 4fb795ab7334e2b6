/** What one sync pass (src/ChainAnalyzer.cpp:740-1021) has applied and what of it is
    durable. Headers below the asset era are stored a hundred to a transaction, and the
    blocks of the era nest in whatever transaction is open. */
module SyncPass {
  import opened BlockStore

  /** What a pass began with. */
  datatype Pass = Pass(from: nat, effects: seq<Effect>, committed: Copy, depth: nat)

  /** Headers in a transaction that is still open when a pass begun at a height has come to
      another: all stored below the era and not yet a full hundred. */
  function Pending(from: nat, height: nat, first: nat): nat {
    if from < first && from <= height then ((if height < first then height else first) - from) % 100 else 0
  }

  /** The era begins inside a batch of headers. */
  predicate Swallowed(from: nat, first: nat) {
    from < first && (first - from) % 100 != 0
  }

  /** The effects of the blocks a pass has processed: those of the asset era, in order. */
  function Applied(passed: seq<Hash>, from: nat, first: nat): seq<Effect> {
    if passed == [] then []
    else
      var n := |passed| - 1;
      Applied(passed[..n], from, first) + if from + n >= first then [Effect(from + n, passed[n], true)] else []
  }

  /** What a crash now would leave: with a transaction already open when the pass began,
      what was there then; otherwise the effects of every block processed, or, when the
      era began inside a batch, of none. */
  ghost predicate Kept(p: Pass, passed: seq<Hash>, committed: Copy, first: nat) {
    if p.depth > 0 then committed == p.committed
    else committed.effects == p.effects + if Swallowed(p.from, first) then [] else Applied(passed, p.from, first)
  }

  /** Between two blocks of a pass. */
  ghost predicate OnTrack(p: Pass, passed: seq<Hash>, committed: Copy, working: Copy, depth: nat, batch: nat,
                          height: nat, first: nat)
  {
    && height == p.from + |passed| && batch == Pending(p.from, height, first)
    && Open(p, depth, height, first) && working.effects == p.effects + Applied(passed, p.from, first)
    && Kept(p, passed, committed, first)
  }

  /** The pass has processed the block of this height and not yet moved on. */
  ghost predicate Processed(p: Pass, passed: seq<Hash>, committed: Copy, working: Copy, depth: nat, batch: nat,
                            height: nat, first: nat)
  {
    && passed != [] && height == p.from + |passed| - 1 && batch == Pending(p.from, height, first)
    && Open(p, depth, height, first) && working.effects == p.effects + Applied(passed, p.from, first)
    && Kept(p, passed, committed, first)
  }

  /** How many transactions are open between two blocks. */
  ghost predicate Open(p: Pass, depth: nat, height: nat, first: nat) {
    depth == p.depth + if Pending(p.from, height, first) > 0 then 1 else 0
  }

  lemma {:induction false} TurnApplied(passed: seq<Hash>, hash: Hash, from: nat, first: nat)
    ensures Applied(passed + [hash], from, first) ==
            Applied(passed, from, first)
            + if from + |passed| >= first then [Effect(from + |passed|, hash, true)] else []
  {
    assert (passed + [hash])[..|passed|] == passed;
  }

  lemma {:induction false} NoneApplied(passed: seq<Hash>, from: nat, first: nat)
    requires from + |passed| <= first
    ensures Applied(passed, from, first) == []
  {
    if passed != [] {
      NoneApplied(passed[..|passed| - 1], from, first);
    }
  }

  /** From the era's first block on, a pass applies every block it processes. */
  lemma {:induction false} AllApplied(passed: seq<Hash>, from: nat, first: nat)
    requires from >= first
    ensures |Applied(passed, from, first)| == |passed|
    ensures forall k :: 0 <= k < |passed| ==> Applied(passed, from, first)[k] == Effect(from + k, passed[k], true)
  {
    if passed != [] {
      AllApplied(passed[..|passed| - 1], from, first);
    }
  }

  /** The first effect a pass brings in is that of its first block in the era. */
  lemma {:induction false} AppliedHead(passed: seq<Hash>, from: nat, first: nat)
    requires passed != [] && from + |passed| > first
    ensures Applied(passed, from, first) != []
    ensures Applied(passed, from, first)[0].height == if from >= first then from else first
  {
    var n := |passed| - 1;
    if n > 0 && from + n > first {
      AppliedHead(passed[..n], from, first);
    } else if n > 0 {
      NoneApplied(passed[..n], from, first);
    }
  }

  lemma {:induction false} PassBegins(p: Pass, working: Copy, first: nat)
    requires working.effects == p.effects && (p.depth == 0 ==> working == p.committed)
    ensures OnTrack(p, [], p.committed, working, p.depth, 0, p.from, first)
  {
  }

  /** A batch is open at the blocks of the era exactly when the era began inside one. */
  lemma {:induction false} OpenInEra(from: nat, height: nat, first: nat)
    requires from <= height && height >= first
    ensures Pending(from, height, first) > 0 <==> Swallowed(from, first)
  {
  }

  /** From block 1 the DigiAsset era, which begins at block 8432316, is reached with fifteen
      headers in an open transaction. */
  lemma {:induction false} FromBlockOne()
    ensures Pending(1, 8432316, 8432316) == 15 && Swallowed(1, 8432316)
  {
  }

  /** One block of the era, committed on its own where no transaction was open. */
  lemma {:induction false} TurnInEra(p: Pass, passed: seq<Hash>, c0: Copy, w0: Copy, c1: Copy, w1: Copy, depth: nat,
                                     batch: nat, height: nat, first: nat, hash: Hash)
    requires OnTrack(p, passed, c0, w0, depth, batch, height, first) && height >= first
    requires w1.effects == w0.effects + [Effect(height, hash, true)]
    requires if depth == 0 then c1 == w1 else c1 == c0
    ensures Processed(p, passed + [hash], c1, w1, depth, batch, height, first)
  {
    TurnApplied(passed, hash, p.from, first);
    OpenInEra(p.from, height, first);
  }

  /** One block below the era changes nothing but the header's batch. */
  lemma {:induction false} TurnBelow(p: Pass, passed: seq<Hash>, c: Copy, w: Copy, depth: nat, batch: nat, height: nat,
                                     first: nat, hash: Hash)
    requires OnTrack(p, passed, c, w, depth, batch, height, first) && height < first
    ensures Processed(p, passed + [hash], c, w, depth, batch, height, first)
  {
    TurnApplied(passed, hash, p.from, first);
  }

  /** A header that cannot be stored costs nothing that was durable. */
  lemma {:induction false} HeaderFailed(p: Pass, passed: seq<Hash>, c0: Copy, w: Copy, c1: Copy, depth: nat, batch: nat,
                                        height: nat, first: nat)
    requires Processed(p, passed, c0, w, depth, batch, height, first) && c1.effects == c0.effects
    requires depth > (if batch > 0 then 1 else 0) ==> c1 == c0
    ensures Kept(p, passed, c1, first)
  {
  }

  /** Storing the next header, in the era or in its batch. */
  lemma {:induction false} HeaderStored(p: Pass, passed: seq<Hash>, c0: Copy, w0: Copy, c1: Copy, w1: Copy, depth0: nat,
                                        depth: nat, batch0: nat, batch: nat, height: nat, first: nat)
    requires Processed(p, passed, c0, w0, depth0, batch0, height, first) && w1.effects == w0.effects
    requires batch == if height >= first then batch0 else (batch0 + 1) % 100
    requires depth + (if batch0 > 0 then 1 else 0) == depth0 + if batch > 0 then 1 else 0
    requires depth0 > (if batch0 > 0 then 1 else 0) ==> c1 == c0
    requires c1.effects == c0.effects || (height < first && c1.effects == w1.effects)
    ensures OnTrack(p, passed, c1, w1, depth, batch, height + 1, first)
  {
    if height < first {
      NoneApplied(passed, p.from, first);
    }
  }
}
