/** The chain analyzer (src/ChainAnalyzer.cpp): sync, rewind, restart and recovery over a
    DigiByte Core that may answer anything a chain allows, fail, or stop answering, and a
    store that may fail and whose open transaction is lost with the process. */
module ChainSync {
  import opened Results
  import opened BlockStore
  import opened SyncPass

  /** One thing the outside does: the answer to an RPC call, a store operation that fails,
      a stop request. Each call and each store operation uses up one; when none is left
      the process has died. */
  datatype Answer = Answer(fails: bool, stop: bool, hash: Hash, next: Hash, bulk: bool, prefetch: Prefetch,
                           deletes: Deletes)

  datatype Prefetch = Nothing | Failed | EndOfChain | Fetched

  /** Whether the statements that discard blocks succeed, or how many do before one fails. */
  datatype Deletes = AllDone | FailsAfter(done: nat)

  /** Core's view of a block: the block it names as next, "" at the tip, and whether it is
      deep enough below the tip for bulk mode. */
  datatype Block = Block(next: Hash, bulk: bool)

  datatype Outcome = Done | Stopped | Threw | Died

  /** How waiting at the tip ends and after which answer. */
  datatype Tip = Tip(out: Outcome, after: Block, moved: bool, at: nat)

  ghost predicate Linked(passed: seq<Hash>, parentOf: Hash -> Hash) {
    forall k :: 0 < k < |passed| ==> parentOf(passed[k]) == passed[k - 1]
  }

  /** The hash of a block stored below a height. */
  ghost predicate StoredBelow(c: Copy, height: nat, hash: Hash) {
    exists h :: h in c.headers && h < height && c.headers[h] == hash
  }

  /** The answer lets a discard delete everything: no statement fails, or, in a transaction
      that was open before and so is not rolled back, only the last, which touches no block. */
  predicate Deletable(a: Answer, depth: nat) {
    a.deletes.AllDone? || (depth > 0 && a.deletes.done >= STATEMENTS - 1)
  }

  /** What a discard makes of the open transaction. */
  ghost function Discarded(c: Copy, height: nat, depth: nat, a: Answer): Copy {
    if Deletable(a, depth) then Cleared(c, height)
    else if depth > 0 && a.deletes.done > 0 then Worn(c, height)
    else c
  }

  /** By its statements: none failing, or all but the fourteenth run where nothing is rolled
      back, the headers above and the effects from the height on are gone and the rest is
      whole; failing earlier there, the headers stay and those effects are in part only; and
      in a transaction of its own a failure takes everything back. */
  lemma {:induction false} DiscardIs(c: Copy, height: nat, depth: nat, a: Answer, h: nat, e: Effect)
    ensures var d := Discarded(c, height, depth, a);
            if a.deletes.AllDone? || (depth >= 1 && a.deletes.done > 12) then
              && (h in d.headers <==> h in c.headers && h <= height)
              && (h in d.headers ==> d.headers[h] == c.headers[h])
              && (e in d.effects <==> e in c.effects && e.height < height)
            else if depth >= 1 && a.deletes.done > 0 then
              && d.headers == c.headers && |d.effects| == |c.effects|
              && forall k :: 0 <= k < |d.effects| ==>
                     && d.effects[k].height == c.effects[k].height && d.effects[k].hash == c.effects[k].hash
                     && d.effects[k].whole == (c.effects[k].whole && c.effects[k].height < height)
            else d == c
  {
    BelowHas(c.effects, height, e);
  }

  /** No discard fails in this life of the process. */
  ghost predicate Discards(life: seq<Answer>) {
    forall k :: 0 <= k < |life| ==> life[k].deletes.AllDone?
  }

  /** Core names two different blocks of one height in consecutive answers. */
  ghost predicate TakenBack(life: seq<Answer>, k: nat, heightOf: Hash -> nat) {
    && k + 1 < |life| && !life[k].fails && !life[k + 1].fails
    && heightOf(life[k].hash) == heightOf(life[k + 1].hash) && life[k].hash != life[k + 1].hash
  }

  /** A life of the process in which a block cannot be applied twice. That is sufficient only:
      it also shuts out answers that are no hashes to anybody and a chain that changes between
      two looks at it, which do no harm. */
  ghost predicate Kind(life: seq<Answer>, heightOf: Hash -> nat) {
    Discards(life) && forall k: nat :: !TakenBack(life, k, heightOf)
  }

  /** How many answers the block's transaction takes: its ends ask only when it is the
      outermost. */
  function Asks(depth: nat): nat {
    if depth == 0 then 3 else 1
  }

  /** From here on the block of a height is processed without a failure and, waiting at the
      tip, Core has another block of that height. */
  ghost predicate LastTurn(life: seq<Answer>, at: nat, depth: nat, height: nat, hash: Hash, heightOf: Hash -> nat) {
    var n := at + Asks(depth);
    && n + 2 <= |life| && (forall k :: at <= k < n + 2 ==> !life[k].fails) && !life[n].stop
    && heightOf(life[n + 1].hash) == height && life[n + 1].hash != hash
  }

  /** The same for a turn that no stop prevents. */
  ghost predicate GoTurn(life: seq<Answer>, at: nat, depth: nat, height: nat, hash: Hash, heightOf: Hash -> nat) {
    at < |life| && !life[at].fails && !life[at].stop && LastTurn(life, at + 1, depth, height, hash, heightOf)
  }

  /** The same for a pass that looks the block up and finds it to be the tip. */
  ghost predicate TipTurn(life: seq<Answer>, at: nat, height: nat, hash: Hash, heightOf: Hash -> nat) {
    && at + 2 <= |life| && !life[at].fails && !life[at + 1].fails
    && life[at].hash == hash && heightOf(hash) == height && life[at + 1].next == ""
    && GoTurn(life, at + 2, 0, height, hash, heightOf)
  }

  /** From here on the next block is fetched, found to be the tip, and its header stored
      without a failure. */
  ghost predicate ChildTurn(life: seq<Answer>, at: nat, height: nat, child: Hash, heightOf: Hash -> nat) {
    && at + 4 <= |life| && (forall k :: at <= k < at + 4 ==> !life[k].fails)
    && life[at].hash == child && heightOf(child) == height && life[at + 1].next == ""
  }

  /** Two turns: a block below the tip, and the tip with the header batch open. */
  ghost predicate EraTurns(life: seq<Answer>, at: nat, height: nat, child: Hash, heightOf: Hash -> nat) {
    && at < |life| && !life[at].fails && !life[at].stop
    && ChildTurn(life, at + 1, height + 1, child, heightOf) && GoTurn(life, at + 5, 1, height + 1, child, heightOf)
  }

  /** The same for a pass that has something to look at first: Core still has the block. */
  ghost predicate StillTurn(life: seq<Answer>, at: nat, height: nat, hash: Hash, heightOf: Hash -> nat) {
    at < |life| && !life[at].fails && life[at].hash == hash && TipTurn(life, at + 1, height, hash, heightOf)
  }

  /** Where a pass is about to begin its sync: the store, the height, the block expected there
      and the place in the answers. */
  datatype Stand = Stand(copy: Copy, height: nat, next: Hash, at: nat)

  class ChainAnalyzer {
    const first: nat
    const pipelineSync: bool
    const block1: Hash
    const heightOf: Hash -> nat
    const parentOf: Hash -> Hash

    // The store: what a crash leaves and what the open transaction sees.
    var committed: Copy
    var working: Copy
    var depth: nat

    var height: nat
    var nextHash: Hash
    var lastPassFailed: bool

    // The outside in this life of the process, and how much of it is used up.
    var life: seq<Answer>
    var at: nat

    /** The blocks processed by the current pass. */
    ghost var passed: seq<Hash>

    /** The last pass ended waiting at the tip, its block applied. */
    ghost var atTip: bool

    /** No pass has begun its sync at a height that was applied already, whole or in part. */
    ghost var once: bool

    /** The passes that have. */
    ghost var doubles: nat

    ghost predicate Fine(c: Copy)
      reads this`once
    {
      1 in c.headers && 0 !in c.headers && (once ==> Good(c, first))
    }

    /** What holds at every moment, even in the middle of a block: a crash now leaves a
        good store. */
    ghost predicate Safe()
      reads this
    {
      first >= 1 && at <= |life| && Fine(committed) && (depth == 0 ==> working == committed)
    }

    /** Between blocks the open transaction is good too. */
    ghost predicate Sound()
      reads this
    {
      Safe() && Fine(working)
    }

    /** Where height stands after a pass that ended without an error. */
    ghost predicate Settled()
      reads this
    {
      && height >= 1
      && (once ==>
            if atTip && height >= first then TopApplied(working, first, height) else Ready(working, first, height))
    }

    /** Everything below height is applied. */
    ghost predicate Covered()
      reads this
    {
      height >= 1 && (once ==> height <= first + |working.effects|)
    }

    /** Between two passes. */
    ghost predicate Rest()
      reads this
    {
      Sound() && if lastPassFailed then depth == 0 else Covered()
    }

    /** The last answer was Core's other block of this height. */
    ghost predicate Moved()
      reads this`life, this`at, this`height, this`nextHash
    {
      0 < at <= |life| && !life[at - 1].fails && life[at - 1].hash != nextHash && heightOf(life[at - 1].hash) == height
    }

    /** The next answer is the block the next pass expects, so it rewinds nothing. */
    ghost predicate Stays()
      reads this
    {
      && !lastPassFailed && at < |life| && !life[at].fails && life[at].hash == nextHash
      && heightOf(nextHash) == height
    }

    /** Where the pass about to begin will begin its sync, if nothing fails before. */
    ghost function Prepared(): Option<Stand>
      reads this
    {
      if !lastPassFailed then Rewound(life, Stand(working, height, nextHash, at), depth)
      else match PickedUp(life, at, working, depth)
           case Some(st) => Rewound(life, st, depth)
           case None => None
    }

    /** The pass about to begin will begin its sync at a height that is applied already. */
    ghost predicate Doubles()
      reads this
    {
      Prepared().Some? && Reaches(Prepared().value.copy, Prepared().value.height)
    }

    constructor (first: nat, pipelineSync: bool, block1: Hash, heightOf: Hash -> nat, parentOf: Hash -> Hash)
      requires first >= 1
      ensures Rest() && once && working == Copy(map[1 := block1], []) && this.first == first
      ensures this.block1 == block1 && this.heightOf == heightOf && this.parentOf == parentOf && depth == 0
    {
      this.first, this.pipelineSync, this.block1, this.heightOf, this.parentOf :=
        first, pipelineSync, block1, heightOf, parentOf;
      committed, working, depth := Copy(map[1 := block1], []), Copy(map[1 := block1], []), 0;
      height, nextHash, lastPassFailed, passed, atTip, once := 1, block1, false, [], false, true;
      life, at, doubles := [], 0, 0;
    }

    method Ask() returns (out: Outcome, a: Answer)
      requires at <= |life|
      modifies this`at
      ensures old(at) <= at <= |life| && out != Stopped
      ensures old(at) == |life| ==> out == Died && at == old(at)
      ensures old(at) < |life| ==> at == old(at) + 1 && a == life[old(at)] && out == if a.fails then Threw else Done
    {
      if at == |life| {
        return Died, Answer(true, true, "", "", false, Nothing, AllDone);
      }
      a := life[at];
      at := at + 1;
      out := if a.fails then Threw else Done;
    }

    /** getblockhash: some block of that height, whichever chain Core is on now. */
    method AskHash(h: nat) returns (out: Outcome, hash: Hash)
      requires at <= |life|
      modifies this`at
      ensures old(at) <= at <= |life| && out != Stopped && (at > old(at) || out == Died)
      ensures out == Done ==> heightOf(hash) == h
      ensures old(at) < |life| ==>
                && at == old(at) + 1 && hash == life[old(at)].hash
                && out == if life[old(at)].fails || heightOf(hash) != h then Threw else Done
      ensures old(at) == |life| ==> out == Died && at == old(at)
    {
      var a;
      out, a := Ask();
      hash := a.hash;
      if out == Done && heightOf(hash) != h {
        out := Threw;
      }
    }

    /** getblock: the block named by the hash; a next block, if it names one, is its child. */
    method AskBlock(hash: Hash) returns (out: Outcome, block: Block)
      requires at <= |life|
      modifies this`at
      ensures old(at) <= at <= |life| && out != Stopped && (at > old(at) || out == Died)
      ensures out == Done ==> Names(hash, block)
      ensures old(at) < |life| ==> at == old(at) + 1 && block == Block(life[old(at)].next, life[old(at)].bulk)
      ensures old(at) < |life| ==>
                out == if life[old(at)].fails || !(block.next == "" || Names(hash, block)) then Threw else Done
      ensures old(at) == |life| ==> out == Died && at == old(at) && block == Block("", false)
    {
      var a;
      out, a := Ask();
      block := if out == Died then Block("", false) else Block(a.next, a.bulk);
      if out == Done && a.next != "" && !(heightOf(a.next) == heightOf(hash) + 1 && parentOf(a.next) == hash) {
        out := Threw;
      }
    }

    /** A store operation throws only when its last answer fails, and dies only without one. */
    ghost predicate Blamed(i: nat, out: Outcome)
      reads this`life, this`at
    {
      (out == Threw ==> i < at <= |life| && life[at - 1].fails) && (out == Died ==> at == |life|)
    }

    /** The last answer fails or is no hash of the height asked about. */
    ghost predicate Baffled(i: nat)
      reads this`life, this`at, this`height
    {
      i < at <= |life| && (life[at - 1].fails || heightOf(life[at - 1].hash) != height)
    }

    ghost predicate Names(hash: Hash, block: Block) {
      block.next == "" || (heightOf(block.next) == heightOf(hash) + 1 && parentOf(block.next) == hash)
    }

    // The store.

    // src/Database.cpp:984-994
    method StartTransaction() returns (out: Outcome)
      requires Safe()
      modifies this`at, this`depth
      ensures at >= old(at) && Safe() && out != Stopped
      ensures depth == old(depth) + if out == Done then 1 else 0
      ensures old(depth) > 0 ==> out == Done
      ensures out == Done ==> at == old(at) + if old(depth) == 0 then 1 else 0
      ensures Blamed(old(at), out)
      ensures old(at) < |life| && !life[old(at)].fails ==> out == Done
    {
      out := Done;
      if depth == 0 {
        var a;
        out, a := Ask();
        if out != Done {
          return;
        }
      }
      depth := depth + 1;
    }

    // src/Database.cpp:1000-1020
    /** Only the outermost end commits, and a commit that fails rolls everything back. */
    method EndTransaction() returns (out: Outcome)
      requires Sound()
      modifies this`at, this`depth, this`committed, this`working
      ensures at >= old(at) && Sound() && out != Stopped
      ensures out == Done ==> working == old(working) && depth == if old(depth) > 0 then old(depth) - 1 else 0
      ensures old(depth) > 1 ==> out == Done && committed == old(committed)
      ensures out == Done ==> at == old(at) + if old(depth) == 1 then 1 else 0
      ensures Blamed(old(at), out)
      ensures committed == if out == Done && old(depth) == 1 then old(working) else old(committed)
      ensures old(at) < |life| && !life[old(at)].fails && old(depth) == 1 ==> out == Done && at == old(at) + 1
    {
      out := Done;
      if depth == 1 {
        var a;
        out, a := Ask();
        depth := 0;
        if out == Done {
          committed := working;
        } else {
          working := committed;
        }
      } else if depth > 1 {
        depth := depth - 1;
      }
    }

    method AbortTransaction()
      requires Safe()
      modifies this`depth, this`working
      ensures Safe() && depth == 0 && working == committed
    {
      if depth > 0 {
        working := committed;
        depth := 0;
      }
    }

    /** A single statement outside a transaction is durable at once. */
    method Write(c: Copy)
      requires Safe() && (depth == 0 ==> Fine(c))
      modifies this`committed, this`working
      ensures Safe() && working == c && committed == if depth == 0 then c else old(committed)
    {
      working := c;
      if depth == 0 {
        committed := c;
      }
    }

    /** Silent when it fails. In a transaction of its own it is all or nothing; inside one
        that is open already the statements done before the failing one stay in it. */
    method ClearBlocksAboveHeight() returns (out: Outcome)
      requires Sound() && Covered()
      modifies this`at, this`committed, this`working, this`once
      ensures Sound() && Covered() && out == if old(at) < |life| then Done else Died
      ensures if out == Done then
                at == old(at) + 1 && working == Discarded(old(working), height, depth, life[old(at)])
              else at == old(at) && working == old(working)
      ensures Keeps(old(once), old(depth), out)
      ensures old(depth) > 0 ==> committed == old(committed)
    {
      hide Below, Cleared, Worn, Good, Reaches;
      var a;
      out, a := Ask();
      if out == Died {
        return;
      }
      out := Done;
      ReachesAfter(working, height);
      if Deletable(a, depth) {
        Roots(working, height);
        if once {
          ClearReady(working, first, height);
        }
        Write(Cleared(working, height));
      } else if depth > 0 && a.deletes.done > 0 {
        WornRoots(working, height);
        once := once && Worn(working, height) == working;
        working := Worn(working, height);
      }
    }

    /** Once-only application is lost here at most by a discard that stops half way inside an
        open transaction, and then the height is still reached. */
    ghost predicate Keeps(was: bool, depth: nat, out: Outcome)
      reads this`once, this`working, this`height
    {
      && (once ==> was)
      && (was && !once ==> out == Done && depth > 0 && Reaches(working, height))
    }

    /** Starts a transaction of its own, so it fails inside an open one and takes that one
        back with it. */
    method Restart() returns (out: Outcome)
      requires Sound()
      modifies this`at, this`committed, this`working, this`height, this`nextHash
      ensures old(at) <= at && Sound() && out != Stopped
      ensures out == Done <==> old(at) < |life| && !life[old(at)].fails && old(depth) == 0
      ensures out == Done ==>
                && Covered() && at == old(at) + 1
                && height == 1 && nextHash == block1 && working == Emptied(old(working))
      ensures old(depth) > 0 ==> committed == old(committed)
      ensures (out == Died ==> at == |life|) && (out == Threw && depth == 0 ==> Baffled(old(at)))
    {
      hide Emptied, Good;
      var a;
      out, a := Ask();
      if out == Died {
        return;
      }
      if depth > 0 || out == Threw {
        working := committed;
        out := Threw;
        return;
      }
      Roots(working, 1);
      if once {
        EmptyReady(working, first);
      }
      Write(Emptied(working));
      height := 1;
      nextHash := block1;
    }

    // Rewind.

    /** Where the way down from height h ends and the answers used up by then: at the first
        lower height whose stored hash Core answers with, or with no hash stored. */
    ghost function Bottom(s: seq<Answer>, i: nat, headers: map<nat, Hash>, h: nat): (r: Option<(nat, nat)>)
      ensures r.Some? ==> r.value.0 < h && i < r.value.1 <= |s|
      decreases h
    {
      if h == 0 || i >= |s| || s[i].fails || heightOf(s[i].hash) != h - 1 then None
      else if h - 1 !in headers || headers[h - 1] == s[i].hash then Some((h - 1, i + 1))
      else Bottom(s, i + 1, headers, h - 1)
    }

    /** What the branch of a fork makes of a store: everything from the fork on is discarded,
        or, where no header is stored, everything. */
    ghost function Back(s: seq<Answer>, i: nat, c: Copy, h: nat, depth: nat): Option<Stand> {
      match Bottom(s, i, c.headers, h)
      case None => None
      case Some((stop, j)) =>
        if stop !in c.headers then
          if j < |s| && !s[j].fails && depth == 0 then Some(Stand(Emptied(c), 1, block1, j + 1)) else None
        else if j < |s| then Some(Stand(Discarded(c, stop, depth, s[j]), stop, c.headers[stop], j + 1))
        else None
    }

    /** What the rewind makes of it: nothing if Core still has the expected block. */
    ghost function Rewound(s: seq<Answer>, st: Stand, depth: nat): Option<Stand> {
      if st.at >= |s| || s[st.at].fails || heightOf(s[st.at].hash) != st.height then None
      else if s[st.at].hash == st.next then Some(st.(at := st.at + 1))
      else Back(s, st.at + 1, st.copy, st.height, depth)
    }

    /** Core answers the questions from height h down from one chain, and nothing fails. */
    ghost predicate Steady(s: seq<Answer>, i: nat, live: nat -> Hash, h: nat) {
      && |s| > i + h + 1 && (forall k :: 0 <= k <= h ==> heightOf(live(k)) == k)
      && forall k :: i <= k < |s| ==>
           !s[k].fails && s[k].deletes.AllDone? && (k <= i + h ==> s[k].hash == live(h - (k - i)))
    }

    /** Every stored header between the two heights disagrees with the chain. */
    ghost predicate Disagree(headers: map<nat, Hash>, live: nat -> Hash, low: nat, high: nat) {
      forall k :: low < k < high ==> k in headers && headers[k] != live(k)
    }

    lemma {:induction false} BottomSteady(s: seq<Answer>, i: nat, live: nat -> Hash, headers: map<nat, Hash>, h: nat)
      returns (stop: nat)
      requires h >= 1 && 0 !in headers && Steady(s, i, live, h - 1)
      ensures stop < h && Disagree(headers, live, stop, h) && Bottom(s, i, headers, h) == Some((stop, i + h - stop))
      ensures stop in headers ==> headers[stop] == live(stop)
      decreases h
    {
      if h - 1 !in headers || headers[h - 1] == s[i].hash {
        stop := h - 1;
      } else {
        stop := BottomSteady(s, i + 1, live, headers, h - 1);
      }
    }

    // src/ChainAnalyzer.cpp:672-726
    /** Against a chain that stands still a rewind changes nothing where Core has the expected
        block, and otherwise goes to the highest lower height where the stored header is the
        chain's, everything from there on discarded; or, where a header is missing first, to
        block 1 with nothing. */
    lemma {:induction false} SteadyRewind(s: seq<Answer>, st: Stand, live: nat -> Hash) returns (stop: nat)
      requires 0 !in st.copy.headers && st.height >= 1 && Steady(s, st.at, live, st.height)
      ensures if live(st.height) == st.next then Rewound(s, st, 0) == Some(st.(at := st.at + 1))
              else
                && stop < st.height && Disagree(st.copy.headers, live, stop, st.height)
                && var i := st.at + 2 + st.height - stop;
                   Rewound(s, st, 0)
                   == Some(if stop in st.copy.headers then Stand(Cleared(st.copy, stop), stop, live(stop), i)
                           else Stand(Emptied(st.copy), 1, block1, i))
    {
      hide Bottom, Cleared, Emptied;
      stop := 0;
      if live(st.height) != st.next {
        stop := BottomSteady(s, st.at + 1, live, st.copy.headers, st.height);
      }
    }

    /** A rewind that does not find the expected block goes on from block 1 or from a stored
        block below. */
    lemma {:induction false} RewindsToStored(s: seq<Answer>, st: Stand, depth: nat)
      requires Rewound(s, st, depth).Some? && s[st.at].hash != st.next
      ensures var r := Rewound(s, st, depth).value;
              || (r.height == 1 && r.next == block1)
              || (r.height < st.height && StoredBelow(st.copy, st.height, r.next))
    {
      hide Discarded, Emptied;
    }

    lemma FineHeight(c: Copy, h: nat)
      requires Fine(c)
      ensures h in c.headers ==> h >= 1 && (once ==> h <= first + |c.effects|)
    {
    }

    /** Down one height at a time until the stored and the live hash agree or nothing is
        stored. */
    method StepBack(live0: Hash) returns (out: Outcome, missing: bool)
      requires at <= |life| && 0 !in working.headers && height >= 1 && live0 != nextHash
      modifies this`at, this`height, this`nextHash
      ensures old(at) <= at <= |life| && height < old(height) && out != Stopped
      ensures (out == Died ==> at == |life|) && (out == Threw ==> Baffled(old(at)))
      ensures out == Done <==> Bottom(life, old(at), working.headers, old(height)).Some?
      ensures out == Done ==> Bottom(life, old(at), working.headers, old(height)) == Some((height, at))
      ensures out == Done ==> missing == (height !in working.headers)
      ensures out == Done && !missing ==> height >= 1 && nextHash == working.headers[height]
    {
      ghost var h0, end := height, Bottom(life, at, working.headers, height);
      var hash := live0;
      missing := false;
      out := Done;
      while hash != nextHash
        invariant 1 <= height <= h0 && (height < h0 || (hash == live0 && nextHash == old(nextHash)))
        invariant height < h0 ==> height in working.headers && nextHash == working.headers[height]
        invariant old(at) <= at <= |life| && out == Done && !missing
        invariant end == if hash == nextHash then Some((height, at)) else Bottom(life, at, working.headers, height)
        decreases height
      {
        height := height - 1;
        out, hash := AskHash(height);
        if out != Done {
          return;
        }
        if height !in working.headers {
          missing := true;
          return;
        }
        nextHash := working.headers[height];
      }
    }

    // src/ChainAnalyzer.cpp:672-726
    /** A rewind either changes nothing because Core still has the expected block, or goes
        back below a fork. */
    method PhaseRewind() returns (out: Outcome)
      requires Sound() && Covered()
      modifies this`at, this`committed, this`working, this`height, this`nextHash, this`once
      ensures at >= old(at) && (at > old(at) || out == Died) && Sound() && out != Stopped
      ensures var r := Rewound(life, old(Here()), old(depth));
              (out == Done <==> r.Some?) && (out == Done ==> Covered() && r.value == Here())
      ensures Keeps(old(once), old(depth), out)
      ensures (out == Died ==> at == |life|) && (out == Threw && depth == 0 ==> Baffled(old(at)))
      ensures old(depth) > 0 ==> committed == old(committed)
      ensures out == Done && life[old(at)].hash == old(nextHash) ==> committed == old(committed) && once == old(once)
    {
      hide Good, Reaches, Back;
      var hash;
      out, hash := AskHash(height);
      if out == Done && hash != nextHash {
        out := GoBack(hash);
      }
    }

    ghost function Here(): Stand
      reads this
    {
      Stand(working, height, nextHash, at)
    }

    /** The branch of a fork. */
    method GoBack(hash: Hash) returns (out: Outcome)
      requires Sound() && height >= 1 && hash != nextHash
      modifies this`at, this`committed, this`working, this`height, this`nextHash, this`once
      ensures at >= old(at) && Sound() && out != Stopped
      ensures var r := Back(life, old(at), old(working), old(height), old(depth));
              (out == Done <==> r.Some?) && (out == Done ==> Covered() && r.value == Here())
      ensures Keeps(old(once), old(depth), out)
      ensures old(depth) > 0 ==> committed == old(committed)
      ensures (out == Died ==> at == |life|) && (out == Threw && depth == 0 ==> Baffled(old(at)))
    {
      hide Good, Fine, Bottom, Reaches, Discarded, Emptied;
      FineHeight(working, 0);
      var missing;
      out, missing := StepBack(hash);
      if out != Done {
        return;
      }
      if missing {
        out := Restart();
        return;
      }
      FineHeight(working, height);
      out := ClearBlocksAboveHeight();
    }

    // Sync.

    /** One block's transactions inside a transaction of their own. A failure in the middle
        leaves part of the block in the open transaction only; with none open before, the
        block is durable with its last statement and not before. */
    method ProcessBlock(hash: Hash) returns (out: Outcome)
      requires Sound() && height >= first && (once ==> Ready(working, first, height))
      modifies this`at, this`committed, this`working, this`depth
      ensures at >= old(at) && Safe() && out != Stopped
      ensures out == Done ==> Sound() && (once ==> TopApplied(working, first, height)) && depth == old(depth)
      ensures out == Done ==> working == old(working).(effects := old(working).effects + [Effect(height, hash, true)])
      ensures out != Done || old(depth) >= 1 ==> committed == old(committed)
      ensures Passes(old(at), Asks(old(depth))) ==> out == Done
      ensures out == Done ==> at == old(at) + Asks(old(depth))
      ensures Blamed(old(at), out)
    {
      hide Good, Ready, TopApplied;
      out := StartTransaction();
      if out != Done {
        return;
      }
      var a;
      out, a := Ask();
      if out != Done {
        working := working.(effects := working.effects + [Effect(height, hash, false)]);
        return;
      }
      if once {
        ApplyGood(working, first, height, hash);
      }
      working := working.(effects := working.effects + [Effect(height, hash, true)]);
      out := EndTransaction();
    }

    /** The next n answers do not fail. */
    ghost predicate Passes(i: nat, n: nat)
      reads this`life
    {
      i + n <= |life| && forall k :: i <= k < i + n ==> !life[k].fails
    }

    /** The next answers are no stop and another block of this height. */
    ghost predicate Leaves(i: nat, h: nat, hash: Hash)
      reads this`life
    {
      Passes(i, 2) && !life[i].stop && heightOf(life[i + 1].hash) == h && life[i + 1].hash != hash
    }

    // Why a pass does not go on.

    /** Core has answered with this hash. */
    ghost predicate Seen(i: nat, hash: Hash)
      reads this`life, this`at
    {
      SeenBy(i, at, hash)
    }

    ghost predicate SeenBy(i: nat, j: nat, hash: Hash)
      reads this`life
    {
      exists k :: i <= k < j && k < |life| && !life[k].fails && life[k].hash == hash
    }

    ghost predicate StopBy(i: nat, j: nat)
      reads this`life
    {
      exists k :: i <= k < j && k < |life| && !life[k].fails && life[k].stop
    }

    /** The last answer fails or is one no chain could give: a block of another height, or one
        whose next block is no child of the block asked about. */
    ghost predicate Amiss(i: nat)
      reads this`life, this`at, this`height, this`nextHash
    {
      && i < at <= |life|
      && var a := life[at - 1];
         || a.fails || (pipelineSync && a.prefetch.Failed?) || heightOf(a.hash) != height
         || (a.next != "" && exists hash :: heightOf(hash) == height && (hash == nextHash || Seen(i, hash))
                                            && !Names(hash, Block(a.next, a.bulk)))
    }

    ghost predicate StopSeen(i: nat)
      reads this`life, this`at
    {
      StopBy(i, at)
    }

    /** The background fetch had nothing left, in the asset era of a pipelined sync. */
    ghost predicate ShutDown(i: nat)
      reads this`life, this`at, this`height
    {
      i < at <= |life| && !life[at - 1].fails && life[at - 1].prefetch.Nothing? && pipelineSync && height > first
    }

    /** What the answers since then say of an outcome: dead without an answer, an error by a bad
        one, stopped because told to, and left from inside because Core has another block or the
        background fetch has none. */
    ghost predicate Because(i: nat, out: Outcome, left: bool)
      reads this`life, this`at, this`height, this`nextHash, this`atTip
    {
      && i <= at <= |life|
      && (out == Died ==> at == |life|)
      && (out == Threw ==> Amiss(i))
      && (out == Stopped ==> StopSeen(i))
      && (out == Done && left ==> if atTip then Moved() else ShutDown(i))
    }

    lemma SeenSince(i: nat, j: nat, out: Outcome, left: bool)
      requires i <= j && Because(j, out, left)
      ensures Because(i, out, left)
    {
      forall hash | Seen(j, hash)
        ensures Seen(i, hash)
      {
      }
    }

    lemma BlamedAmiss(i: nat, j: nat, out: Outcome, left: bool)
      requires i <= j && Blamed(j, out) && i <= at <= |life| && out != Stopped && (out == Done ==> !left)
      ensures Because(i, out, left)
    {
    }

    /** Core's block of the height is not the expected one. */
    ghost predicate Elsewhere(i: nat)
      reads this`life, this`at, this`height, this`nextHash
    {
      exists hash :: hash != nextHash && heightOf(hash) == height && Seen(i, hash)
    }

    /** Once round at the tip: a look for a stop, then whether the block is still Core's, then
        whether it has a next one. */
    ghost function Round(s: seq<Answer>, i: nat, hash: Hash, h: nat): Tip {
      var tip := Block("", false);
      if i >= |s| then Tip(Died, tip, false, i)
      else if s[i].fails then Tip(Threw, tip, false, i + 1)
      else if s[i].stop then Tip(Stopped, tip, false, i + 1)
      else if i + 1 >= |s| then Tip(Died, tip, false, i + 1)
      else if s[i + 1].fails || heightOf(s[i + 1].hash) != h then Tip(Threw, tip, false, i + 2)
      else if s[i + 1].hash != hash then Tip(Done, tip, true, i + 2)
      else if i + 2 >= |s| then Tip(Died, tip, false, i + 2)
      else
        var after := Block(s[i + 2].next, s[i + 2].bulk);
        Tip(if s[i + 2].fails || !Names(hash, after) then Threw else Done, after, false, i + 3)
    }

    /** What waiting at the tip comes to: round after round while the block is Core's and has no
        next one. */
    ghost function Waited(s: seq<Answer>, i: nat, hash: Hash, h: nat): Tip
      decreases |s| - i
    {
      var r := Round(s, i, hash, h);
      if r.out == Done && !r.moved && r.after.next == "" then Waited(s, r.at, hash, h) else r
    }

    /** What is known when the wait is over. */
    ghost predicate WaitEnds(i: nat, hash: Hash, block: Block, out: Outcome, after: Block, moved: bool)
      reads this`life, this`at, this`height
    {
      && i <= at <= |life|
      && (out == Done && !moved ==> after.next != "" && Names(hash, after))
      && (moved ==> out == Done && block.next == "" && i < at && AnotherHash(life[at - 1], hash, height))
      && (out == Died ==> at == |life|)
      && (out == Stopped ==> block.next == "" && i < at && !life[at - 1].fails && life[at - 1].stop)
      && (out == Threw ==> i < at && NoAnswer(life[at - 1], hash, height))
    }

    ghost predicate AnotherHash(a: Answer, hash: Hash, h: nat) {
      !a.fails && a.hash != hash && heightOf(a.hash) == h
    }

    ghost predicate NoAnswer(a: Answer, hash: Hash, h: nat) {
      a.fails || heightOf(a.hash) != h || !Names(hash, Block(a.next, a.bulk))
    }

    lemma RoundEnds(s: seq<Answer>, i: nat, hash: Hash, h: nat)
      requires i <= |s|
      ensures TipEnds(s, i, hash, h, Round(s, i, hash, h))
    {
    }

    ghost predicate TipEnds(s: seq<Answer>, i: nat, hash: Hash, h: nat, w: Tip) {
      && i <= w.at <= |s| && (w.out == Died ==> w.at == |s|)
      && (w.out == Done ==> i < w.at && if w.moved then AnotherHash(s[w.at - 1], hash, h) else Names(hash, w.after))
      && (w.moved ==> w.out == Done)
      && (w.out == Stopped ==> i < w.at && !s[w.at - 1].fails && s[w.at - 1].stop)
      && (w.out == Threw ==> i < w.at && NoAnswer(s[w.at - 1], hash, h))
    }

    lemma {:induction false} WaitedEnds(s: seq<Answer>, i: nat, hash: Hash, h: nat)
      requires i <= |s|
      ensures var w := Waited(s, i, hash, h);
              TipEnds(s, i, hash, h, w) && (w.out == Done && !w.moved ==> w.after.next != "")
      decreases |s| - i
    {
      RoundEnds(s, i, hash, h);
      var r := Round(s, i, hash, h);
      hide Round, AnotherHash, NoAnswer, Names;
      if r.out == Done && !r.moved && r.after.next == "" {
        WaitedEnds(s, r.at, hash, h);
      }
    }

    /** Waiting at the tip for a next block; left when told to stop or when Core has another
        block at this height. */
    method WaitAtTip(hash: Hash, block: Block) returns (out: Outcome, after: Block, moved: bool)
      requires Names(hash, block) && at <= |life|
      modifies this`at
      ensures block.next != "" ==> out == Done && !moved && after == block && at == old(at)
      ensures block.next == "" ==> Tip(out, after, moved, at) == Waited(life, old(at), hash, height)
      ensures WaitEnds(old(at), hash, block, out, after, moved)
    {
      hide Round, AnotherHash, NoAnswer, Names;
      out, after, moved := Done, block, false;
      ghost var w := Waited(life, at, hash, height);
      WaitedEnds(life, at, hash, height);
      while out == Done && !moved && after.next == ""
        invariant old(at) <= at <= |life|
        invariant if block.next != "" then Tip(out, after, moved, at) == Tip(Done, block, false, old(at))
                  else w == if out == Done && !moved && after.next == "" then Waited(life, at, hash, height)
                            else Tip(out, after, moved, at)
        decreases out == Done && !moved && after.next == "", |life| - at
      {
        RoundEnds(life, at, hash, height);
        out, after, moved := WaitOnce(hash);
      }
    }

    method WaitOnce(hash: Hash) returns (out: Outcome, after: Block, moved: bool)
      requires at <= |life|
      modifies this`at
      ensures Tip(out, after, moved, at) == Round(life, old(at), hash, height)
    {
      after, moved := Block("", false), false;
      var a;
      out, a := Ask();
      if out != Done {
        return;
      }
      if a.stop {
        out := Stopped;
        return;
      }
      var current;
      out, current := AskHash(height);
      if out != Done {
        return;
      }
      if hash != current {
        moved := true;
        return;
      }
      out, after := AskBlock(hash);
    }

    /** How the next block was got: by the background fetch, whose block is taken if it has the
        right height and else looked up like one there is none of; or by its expected hash deep
        below the tip, but for every hundredth block; or by asking for the height. */
    ghost predicate FetchedBy(i: nat, j: nat, bulk: bool, pipeline: bool, hash: Hash, block: Block)
      reads this`life, this`height, this`nextHash
    {
      && i < j <= |life| && block == Block(life[j - 1].next, life[j - 1].bulk)
      && (!pipeline ==>
            if bulk && height % 100 != 0 then j == i + 1 && hash == nextHash
            else j == i + 2 && hash == life[i].hash)
      && (pipeline ==>
            || (life[i].prefetch.EndOfChain? && j == i + 2 && hash == nextHash)
            || (life[i].prefetch.Fetched? && heightOf(life[i].hash) == height && j == i + 1 && hash == life[i].hash)
            || (life[i].prefetch.Fetched? && heightOf(life[i].hash) != height && j == i + 3
                && hash == life[i + 1].hash))
    }

    method FetchNext(bulk: bool, pipeline: bool) returns (out: Outcome, hash: Hash, block: Block, shutdown: bool)
      requires heightOf(nextHash) == height && at <= |life| && (pipeline ==> pipelineSync)
      modifies this`at
      ensures old(at) <= at <= |life| && out != Stopped
      ensures out == Done && !shutdown ==> heightOf(hash) == height && Names(hash, block)
      ensures out == Done && !shutdown ==> FetchedBy(old(at), at, bulk, pipeline, hash, block)
      ensures out == Done && !shutdown ==> hash == nextHash || Seen(old(at), hash)
      ensures shutdown ==>
                pipeline && out == Done && old(at) < at && !life[at - 1].fails && life[at - 1].prefetch.Nothing?
      ensures out == Threw ==> Amiss(old(at))
      ensures out == Died ==> at == |life|
      ensures !bulk && !pipeline && Passes(old(at), 2) && heightOf(life[old(at)].hash) == height
              && life[old(at) + 1].next == "" ==>
                out == Done && !shutdown && at == old(at) + 2 && hash == life[old(at)].hash && block.next == ""
    {
      out, shutdown, hash, block := Done, false, "", Block("", false);
      ghost var i := at;
      if pipeline {
        var a;
        out, a := Ask();
        if out != Done {
          return;
        }
        match a.prefetch {
          case Nothing =>
            shutdown := true;
            return;
          case Failed =>
            out := Threw;
            return;
          case EndOfChain =>
            hash := nextHash;
          case Fetched =>
            hash := a.hash;
            block := Block(a.next, a.bulk);
            assert Seen(i, hash);
            if a.next != "" && !(heightOf(a.next) == heightOf(hash) + 1 && parentOf(a.next) == hash) {
              out := Threw;
              return;
            }
            if heightOf(hash) == height {
              return;
            }
            out, hash := AskHash(height);
            if out != Done {
              return;
            }
        }
      } else if bulk && height % 100 != 0 {
        hash := nextHash;
      } else {
        out, hash := AskHash(height);
        if out != Done {
          return;
        }
      }
      assert hash == nextHash || Seen(i, hash);
      out, block := AskBlock(hash);
    }

    /** The header goes in before the block is processed; below the asset era a hundred
        headers share one transaction. */
    method SaveHeader(hash: Hash, assetEra: bool, batch: nat) returns (out: Outcome, newBatch: nat)
      requires Sound() && height >= 1 && (once ==> height <= first + |working.effects|)
      requires batch < 100 && (batch > 0 ==> depth > 0)
      modifies this`at, this`committed, this`working, this`depth
      ensures at >= old(at) && Safe() && out != Stopped
      ensures out == Done ==> Sound() && working == old(working).(headers := old(working).headers[height := hash])
      ensures out == Done ==> newBatch == if assetEra then batch else (batch + 1) % 100
      ensures out == Done ==> depth + (if batch > 0 then 1 else 0) == old(depth) + if newBatch > 0 then 1 else 0
      ensures || committed.effects == old(committed).effects
              || (out == Done && !assetEra && committed.effects == working.effects)
      ensures old(depth) > (if assetEra || batch == 0 then 0 else 1) ==> committed == old(committed)
      ensures assetEra ==> depth == old(depth)
      ensures !assetEra && batch == 0 && old(depth) == 0 && Passes(old(at), 2) ==> out == Done && at == old(at) + 2
      ensures Blamed(old(at), out)
    {
      hide Good;
      newBatch := batch;
      out := Done;
      if !assetEra && batch == 0 {
        out := StartTransaction();
        if out != Done {
          return;
        }
      }
      var a;
      out, a := Ask();
      if out != Done {
        return;
      }
      if once {
        HeaderGood(working, first, height, hash);
      }
      Write(working.(headers := working.headers[height := hash]));
      if !assetEra {
        newBatch := newBatch + 1;
        if newBatch >= 100 {
          out := EndTransaction();
          newBatch := 0;
        }
      }
    }

    // The state at the head of the loop, about to look at the block of this height.

    ghost predicate AtHead(hash: Hash, block: Block)
      reads this
    {
      && Sound() && height >= 1 && (once ==> Ready(working, first, height))
      && heightOf(hash) == height && Names(hash, block)
      && Linked(passed, parentOf) && (passed != [] ==> parentOf(nextHash) == passed[|passed| - 1])
    }

    /** What the pass has applied is in the open transaction, and what of it a crash keeps
        is in the store. */
    ghost predicate Tracked(p: Pass, batch: nat)
      reads this
    {
      OnTrack(p, passed, committed, working, depth, batch, height, first)
    }

    /** The same behind the block of this height. */
    ghost predicate Behind(p: Pass, batch: nat)
      reads this
    {
      && Processed(p, passed, committed, working, depth, batch, height, first)
      && (once ==> if height >= first then TopApplied(working, first, height) else Ready(working, first, height))
    }

    /** One turn of the loop: unless told to stop, process, wait at the tip, fetch the next
        block and store its header. left says the pass ends here without an error, and
        without an end to the transaction of the header batch. A turn of the asset era is
        durable as a whole, or, with a transaction already open, not at all. */
    method Step(hash0: Hash, block0: Block, batch0: nat, ghost p: Pass)
      returns (out: Outcome, block: Block, batch: nat, hash: Hash, left: bool, stop: bool)
      requires AtHead(hash0, block0) && hash0 == nextHash && !atTip && Tracked(p, batch0)
      modifies this`at, this`committed, this`working, this`depth, this`height, this`nextHash, this`passed, this`atTip
      ensures at >= old(at) && (out == Done ==> at > old(at)) && Safe() && Linked(passed, parentOf)
      ensures passed == old(passed) || passed == old(passed) + [hash0]
      ensures stop ==>
                && out == Done && !left && hash == hash0 && batch == batch0
                && passed == old(passed) && nextHash == old(nextHash)
      ensures out == Done && !left && !stop ==> passed == old(passed) + [hash0] && height == old(height) + 1
      ensures out == Done && !left ==> AtHead(hash, block) && Tracked(p, batch) && !atTip
      ensures Kept(p, passed, committed, first)
      ensures left ==> (out == Done || out == Stopped) && Ended(p, true) && passed == old(passed) + [hash0]
      ensures out == Stopped ==> left
      ensures out == Done && left && atTip ==> Moved()
      ensures out == Done && old(height) >= first && !stop ==>
                depth == old(depth) && committed == if depth == 0 then working else old(committed)
      ensures block0.next == "" && old(height) >= first
              && GoTurn(life, old(at), old(depth), old(height), hash0, heightOf) ==>
                && out == Done && left && atTip && at == old(at) + 1 + Asks(old(depth)) + 2
                && height == old(height) && nextHash == hash0 && working.headers == old(working).headers
      ensures Goes(old(at)) && GoesUp(old(at) + 1, old(depth), batch0, old(height), block0) ==>
                && out == Done && !left && !stop && at == old(at) + 5 && depth == 1
                && hash == block0.next == nextHash && block.next == ""
      ensures stop <==> old(at) < |life| && !life[old(at)].fails && life[old(at)].stop
      ensures Because(old(at), out, left) && (left && !atTip ==> block0.bulk) && (block0.next != "" ==> !atTip)
      ensures out == Done && !left && !stop ==>
                && (hash == nextHash || Seen(old(at), hash))
                && (block0.next != "" ==>
                      Fetched(old(at) + 1 + if old(height) >= first then Asks(old(depth)) else 0, block0.bulk,
                              pipelineSync && old(height) >= first && block0.bulk, hash, block))
    {
      hide Good, Fine, Linked, GoTurn, LastTurn, Applied, Kept, OnTrack, Ready, TopApplied, GoesUp, Ended;
      hide Fetched, Because, Seen, Settled;
      ghost var i := at;
      block, batch, hash, left, stop := block0, batch0, hash0, false, false;
      KeptTracked(p, batch0);
      GoAnswers(life, at, depth, height, hash0);
      var a;
      out, a := Ask();
      if out != Done {
        BlamedAmiss(i, i, out, left);
        return;
      }
      if a.stop {
        stop := true;
        BlamedAmiss(i, i, out, left);
        return;
      }
      ghost var j := at;
      out, block, batch, hash, left := TakeTurn(hash0, block0, batch0, p);
      SeenSince(i, j, out, left);
      SeenEarlier(i, j, hash);
    }

    /** The turn itself. */
    method TakeTurn(hash0: Hash, block0: Block, batch0: nat, ghost p: Pass)
      returns (out: Outcome, block: Block, batch: nat, hash: Hash, left: bool)
      requires AtHead(hash0, block0) && hash0 == nextHash && !atTip && Tracked(p, batch0)
      modifies this`at, this`committed, this`working, this`depth, this`height, this`nextHash, this`passed, this`atTip
      ensures at >= old(at) && Safe() && Linked(passed, parentOf)
      ensures passed == old(passed) || passed == old(passed) + [hash0]
      ensures out == Done && !left ==> passed == old(passed) + [hash0] && height == old(height) + 1
      ensures out == Done && !left ==> AtHead(hash, block) && Tracked(p, batch) && !atTip
      ensures Kept(p, passed, committed, first)
      ensures left ==> (out == Done || out == Stopped) && Ended(p, true) && passed == old(passed) + [hash0]
      ensures out == Stopped ==> left
      ensures out == Done && left && atTip ==> Moved()
      ensures out == Done && old(height) >= first ==>
                depth == old(depth) && committed == if depth == 0 then working else old(committed)
      ensures block0.next == "" && old(height) >= first
              && LastTurn(life, old(at), old(depth), old(height), hash0, heightOf) ==>
                && out == Done && left && atTip && at == old(at) + Asks(old(depth)) + 2
                && height == old(height) && nextHash == hash0 && working.headers == old(working).headers
      ensures GoesUp(old(at), old(depth), batch0, old(height), block0) ==>
                && out == Done && !left && at == old(at) + 4 && depth == 1
                && hash == block0.next == nextHash && block.next == ""
      ensures Because(old(at), out, left) && (left && !atTip ==> block0.bulk) && (block0.next != "" ==> !atTip)
      ensures out == Done && !left ==>
                && (hash == nextHash || Seen(old(at), hash))
                && (block0.next != "" ==>
                      Fetched(old(at) + if old(height) >= first then Asks(old(depth)) else 0, block0.bulk,
                              pipelineSync && old(height) >= first && block0.bulk, hash, block))
    {
      hide Good, Fine, Linked, LastTurn, Applied, Kept, OnTrack, Processed, Open, Ready, TopApplied, GoesUp, Behind;
      hide Ended, Fetched, Waited, Because, Settled, Seen;
      ghost var i, j := at, at;
      block, batch, hash, left := block0, batch0, hash0, false;
      LastAnswers(life, at, depth, height, hash0);
      UpBelow(at, depth, batch0, height, block0);
      out := Process(hash0, block0, batch0, p);
      if out == Done {
        j := at;
        out, block, batch, hash, left := Onward(hash0, block0, batch0, p);
        SeenSince(i, j, out, left);
        SeenEarlier(i, j, hash);
      } else {
        BlamedAmiss(i, j, out, left);
      }
    }

    /** The next answer is no stop. */
    ghost predicate Goes(i: nat)
      reads this`life
    {
      i < |life| && !life[i].fails && !life[i].stop
    }

    lemma GoAnswers(life: seq<Answer>, i: nat, depth: nat, height: nat, hash: Hash)
      ensures GoTurn(life, i, depth, height, hash, heightOf) ==>
                i < |life| && !life[i].fails && !life[i].stop && LastTurn(life, i + 1, depth, height, hash, heightOf)
    {
    }

    lemma LastAnswers(life: seq<Answer>, i: nat, depth: nat, height: nat, hash: Hash)
      ensures LastTurn(life, i, depth, height, hash, heightOf) ==>
                var n := i + Asks(depth);
                && n + 2 <= |life| && (forall k :: i <= k < n + 2 ==> !life[k].fails) && !life[n].stop
                && heightOf(life[n + 1].hash) == height && life[n + 1].hash != hash
    {
    }

    /** Behind the block: wait at the tip if it is one, or go on. */
    method Onward(hash0: Hash, block0: Block, batch0: nat, ghost p: Pass)
      returns (out: Outcome, block: Block, batch: nat, hash: Hash, left: bool)
      requires Sound() && height >= 1 && !atTip && Behind(p, batch0) && hash0 == nextHash
      requires heightOf(hash0) == height && Names(hash0, block0)
      requires Linked(passed, parentOf) && passed != [] && passed[|passed| - 1] == hash0
      modifies this`at, this`committed, this`working, this`depth, this`height, this`nextHash, this`atTip
      ensures at >= old(at) && Safe() && Kept(p, passed, committed, first)
      ensures out == Done && !left ==> AtHead(hash, block) && Tracked(p, batch) && !atTip && height == old(height) + 1
      ensures left ==> (out == Done || out == Stopped) && Ended(p, true)
      ensures out == Stopped ==> left
      ensures out == Done && left && atTip ==> Moved()
      ensures old(height) >= first ==> depth == old(depth) && (depth > 0 ==> committed == old(committed))
      ensures block0.next == "" && Leaves(old(at), old(height), hash0) ==>
                && out == Done && left && atTip && at == old(at) + 2 && height == old(height)
                && nextHash == hash0 && working == old(working) && depth == old(depth)
      ensures GoesUp(old(at), old(depth), batch0, old(height), block0) ==>
                && out == Done && !left && at == old(at) + 4 && depth == 1
                && hash == block0.next == nextHash && block.next == ""
      ensures Because(old(at), out, left) && (left && !atTip ==> block0.bulk)
      ensures block0.next == "" ==> var w := Waited(life, old(at), hash0, old(height));
                                    (w.out == Stopped <==> out == Stopped) && (w.moved <==> out == Done && atTip)
      ensures block0.next != "" ==> !atTip
      ensures out == Done && !left ==>
                && (hash == nextHash || Seen(old(at), hash))
                && (block0.next != "" ==>
                      Fetched(old(at), block0.bulk, pipelineSync && old(height) >= first && block0.bulk, hash, block))
    {
      hide Good, Fine, Linked, Applied, Kept, OnTrack, Processed, Open, Ready, TopApplied, GoesUp, Fetched, Because;
      hide Ended;
      ghost var i := at;
      block, batch, hash, left := block0, batch0, hash0, false;
      UpBelow(at, depth, batch0, height, block0);
      var moved;
      out, block, moved := WaitAtTip(hash0, block0);
      if out == Stopped || moved {
        atTip, left := true, true;
        Ending(p, batch0);
        TipBecause(i, hash0, block0, out, block, moved, left);
        return;
      }
      if out != Done {
        KeptBehind(p, batch0);
        TipBecause(i, hash0, block0, out, block, moved, left);
        return;
      }
      ghost var j := at;
      out, block, batch, hash, left := Advance(hash0, block0.bulk, block, batch0, p);
      SeenSince(i, j, out, left);
      SeenEarlier(i, j, hash);
    }

    lemma TipBecause(i: nat, hash: Hash, block: Block, out: Outcome, after: Block, moved: bool, left: bool)
      requires WaitEnds(i, hash, block, out, after, moved) && hash == nextHash && heightOf(hash) == height
      requires (left ==> atTip) && (out == Done && left ==> moved)
      ensures Because(i, out, left)
    {
    }

    lemma Earlier(i: nat, j: nat)
      requires i <= j
      ensures (Amiss(j) ==> Amiss(i)) && (StopSeen(j) ==> StopSeen(i))
      ensures (Elsewhere(j) ==> Elsewhere(i)) && (ShutDown(j) ==> ShutDown(i))
    {
      forall hash | Seen(j, hash)
        ensures Seen(i, hash)
      {
      }
    }

    lemma SeenEarlier(i: nat, j: nat, hash: Hash)
      requires i <= j
      ensures Seen(j, hash) ==> Seen(i, hash)
    {
    }

    /** A turn below the era with a child to go on to, found to be the tip. */
    ghost predicate GoesUp(i: nat, depth: nat, batch: nat, height: nat, block: Block)
      reads this`life
    {
      && depth == 0 && batch == 0 && height < first && block.next != "" && !block.bulk
      && ChildTurn(life, i, height + 1, block.next, heightOf)
    }

    lemma UpBelow(i: nat, depth: nat, batch: nat, height: nat, block: Block)
      ensures GoesUp(i, depth, batch, height, block) ==> height < first && block.next != ""
    {
    }

    lemma Ending(p: Pass, batch: nat)
      requires Sound() && height >= 1 && atTip && Behind(p, batch)
      ensures Ended(p, true) && Kept(p, passed, committed, first)
    {
    }

    lemma KeptBehind(p: Pass, batch: nat)
      requires Behind(p, batch)
      ensures Kept(p, passed, committed, first)
    {
    }

    /** The tip has a child: on to it. */
    method Advance(hash0: Hash, bulk: bool, after: Block, batch0: nat, ghost p: Pass)
      returns (out: Outcome, block: Block, batch: nat, hash: Hash, left: bool)
      requires Sound() && height >= 1 && !atTip && Behind(p, batch0) && after.next != ""
      requires heightOf(hash0) == height && Names(hash0, after)
      requires Linked(passed, parentOf) && passed[|passed| - 1] == hash0
      modifies this`at, this`committed, this`working, this`depth, this`height, this`nextHash
      ensures at >= old(at) && Safe() && out != Stopped && Kept(p, passed, committed, first)
      ensures out == Done && !left ==> AtHead(hash, block) && Tracked(p, batch) && height == old(height) + 1
      ensures left ==> out == Done && Ended(p, true)
      ensures old(height) >= first ==> depth == old(depth) && (depth > 0 ==> committed == old(committed))
      ensures after.bulk == bulk && GoesUp(old(at), old(depth), batch0, old(height), after) ==>
                && out == Done && !left && at == old(at) + 4 && depth == 1
                && hash == after.next == nextHash && block.next == ""
      ensures Because(old(at), out, left) && (left ==> bulk)
      ensures out == Done && !left ==>
                && (hash == nextHash || Seen(old(at), hash))
                && Fetched(old(at), bulk, pipelineSync && old(height) >= first && bulk, hash, block)
    {
      hide Good, Fine, Linked, Applied, Kept, OnTrack, Ready, TopApplied, Amiss, FetchedBy, Names, GoesUp, Ended;
      ghost var i, h := at, height;
      UpAnswers(i, depth, batch0, height, after);
      var assetEra := height >= first;
      batch := batch0;
      if once {
        NextReady(working, first, height);
      }
      out, hash, block, left := Look(hash0, bulk, after);
      if out != Done || left {
        LookEnds(p, batch0, h, i, out, left);
        left := out == Done;
        return;
      }
      ghost var j := at;
      FetchSeen(i, hash);
      out, batch := StoreNext(hash, assetEra, batch0, p);
      BlamedAmiss(i, j, out, false);
      assert FetchedBy(i, j, bulk, pipelineSync && assetEra && bulk, hash, block);
    }

    /** On to the next height, and its block fetched. */
    method Look(hash0: Hash, bulk: bool, after: Block) returns (out: Outcome, hash: Hash, block: Block, left: bool)
      requires at <= |life| && after.next != "" && heightOf(hash0) == height && Names(hash0, after)
      modifies this`at, this`height, this`nextHash
      ensures old(at) <= at <= |life| && out != Stopped && height == old(height) + 1 && nextHash == after.next
      ensures out == Threw ==> Amiss(old(at))
      ensures out == Died ==> at == |life|
      ensures out == Done && !left ==>
                && heightOf(hash) == height && Names(hash, block) && (hash == nextHash || Seen(old(at), hash))
                && FetchedBy(old(at), at, bulk, pipelineSync && old(height) >= first && bulk, hash, block)
      ensures parentOf(nextHash) == hash0
      ensures left ==> out == Done && bulk && ShutDown(old(at))
      ensures !bulk && Passes(old(at), 2) && life[old(at)].hash == after.next && life[old(at) + 1].next == "" ==>
                out == Done && !left && at == old(at) + 2 && hash == after.next && block.next == ""
    {
      hide Amiss, FetchedBy;
      var assetEra := height >= first;
      nextHash := after.next;
      height := height + 1;
      var pipeline := pipelineSync && assetEra && bulk && nextHash != "";
      out, hash, block, left := FetchNext(bulk, pipeline);
    }

    /** A fetch that ends the pass costs nothing of what the pass has done. */
    lemma LookEnds(p: Pass, batch: nat, h: nat, i: nat, out: Outcome, left: bool)
      requires height == h + 1 && Processed(p, passed, committed, working, depth, batch, h, first)
      requires Sound() && !atTip && i <= at <= |life| && (once ==> Ready(working, first, height))
      requires (out == Threw ==> Amiss(i)) && (out == Died ==> at == |life|) && out != Stopped
      requires left ==> out == Done && ShutDown(i)
      ensures Kept(p, passed, committed, first) && Because(i, out, left) && (left ==> Ended(p, true))
    {
      hide Amiss, Good, Fine, Applied, Kept;
    }

    lemma UpAnswers(i: nat, depth: nat, batch: nat, height: nat, block: Block)
      ensures GoesUp(i, depth, batch, height, block) ==>
                && depth == 0 && batch == 0 && height < first && !block.bulk && Passes(i, 2) && Passes(i + 2, 2)
                && life[i].hash == block.next && heightOf(block.next) == height + 1 && life[i + 1].next == ""
    {
    }

    /** Where the next block was got from. */
    ghost predicate Fetched(i: nat, bulk: bool, pipeline: bool, hash: Hash, block: Block)
      reads this`life, this`at, this`height, this`nextHash
    {
      exists j: nat :: j <= at && FetchedBy(i, j, bulk, pipeline, hash, block)
    }

    lemma FetchSeen(i: nat, hash: Hash)
      ensures Seen(i, hash) ==> exists k :: i <= k < at && k < |life| && !life[k].fails && life[k].hash == hash
    {
    }

    method StoreNext(hash: Hash, assetEra: bool, batch0: nat, ghost p: Pass) returns (out: Outcome, batch: nat)
      requires Sound() && height >= 2 && (once ==> Ready(working, first, height) && height <= first + |working.effects|)
      requires Processed(p, passed, committed, working, depth, batch0, height - 1, first)
      requires assetEra == (height > first)
      modifies this`at, this`committed, this`working, this`depth
      ensures at >= old(at) && Safe() && out != Stopped && Kept(p, passed, committed, first)
      ensures out == Done ==> Sound() && (once ==> Ready(working, first, height)) && Tracked(p, batch)
      ensures assetEra ==> depth == old(depth) && (depth > 0 ==> committed == old(committed))
      ensures !assetEra && batch0 == 0 && old(depth) == 0 && Passes(old(at), 2) ==>
                out == Done && at == old(at) + 2 && depth == 1
      ensures Blamed(old(at), out)
    {
      hide Good, Fine, Applied, Kept, OnTrack;
      ghost var c, w, d := committed, working, depth;
      out, batch := SaveHeader(hash, assetEra, batch0);
      if out != Done {
        HeaderFailed(p, passed, c, w, committed, d, batch0, height - 1, first);
        return;
      }
      HeaderStored(p, passed, c, w, committed, working, d, depth, batch0, batch, height - 1, first);
    }

    method Process(hash0: Hash, block0: Block, batch: nat, ghost p: Pass) returns (out: Outcome)
      requires AtHead(hash0, block0) && hash0 == nextHash && Tracked(p, batch)
      modifies this`at, this`committed, this`working, this`depth, this`passed
      ensures at >= old(at) && Safe() && Linked(passed, parentOf) && out != Stopped
      ensures out == Done ==> Sound() && Behind(p, batch) && passed == old(passed) + [hash0]
      ensures out == Done ==> working.headers == old(working).headers && depth == old(depth)
      ensures old(depth) > 0 ==> committed == old(committed)
      ensures out != Done ==> passed == old(passed) && Kept(p, passed, committed, first)
      ensures height < first || Passes(old(at), Asks(old(depth))) ==> out == Done
      ensures out == Done ==> at == old(at) + if height >= first then Asks(old(depth)) else 0
      ensures Blamed(old(at), out)
    {
      hide Good, Fine, Applied, Kept, Ready, TopApplied;
      out := Done;
      ghost var c, w, before := committed, working, passed;
      if height >= first {
        out := ProcessBlock(hash0);
        if out != Done {
          return;
        }
        TurnInEra(p, passed, c, w, committed, working, depth, batch, height, first, hash0);
      } else {
        TurnBelow(p, passed, c, w, depth, batch, height, first, hash0);
      }
      passed := passed + [hash0];
    }

    // src/ChainAnalyzer.cpp:740-1021
    /** Indexing from the current height to the tip. Whatever way blocks are fetched, each
        block processed is the child of the one before. It ends normally in four ways: told
        to stop, or because Core no longer has the expected block, before anything of it is
        processed; and from inside the loop, which left says: waiting at the tip, its block
        applied, or because the background fetch was shut down.

        open says of each turn whether a transaction was open when it began. For the turns
        of the asset era that is so exactly when one was open before the pass or the era
        began inside a batch of headers. Without either every block is durable when its turn
        is over. With either none is before the loop ends by its condition, and a pass left
        from inside leaves the transaction open. */
    method PhaseSync() returns (out: Outcome, left: bool, ghost open: seq<bool>)
      requires Sound() && height >= 1 && (once ==> Ready(working, first, height))
      modifies this`at, this`committed, this`working, this`depth, this`height, this`nextHash, this`passed, this`atTip
      ensures old(at) <= at && (at > old(at) || out == Died) && Safe() && Linked(passed, parentOf)
      ensures passed != [] ==> passed[0] == old(nextHash)
      ensures out == Done || out == Stopped ==> Ended(old(Begin()), left)
      ensures left ==> out == Done || out == Stopped
      ensures left || out == Threw || out == Died ==> Kept(old(Begin()), passed, committed, first)
      ensures old(depth) > 0 ==> committed == old(committed)
      ensures |passed| <= |open| <= |passed| + 1 && OpenTurns(old(Begin()), open)
      ensures Because(old(at), out, left) && (out == Done && !left ==> Elsewhere(old(at)))
      ensures out == Done && atTip ==> left && Moved()
      ensures old(depth) == 0 && old(height) >= first
              && TipTurn(life, old(at), old(height), old(nextHash), heightOf) ==>
                && out == Done && left && atTip && at == old(at) + 8 && passed == [old(nextHash)]
                && height == old(height) && nextHash == old(nextHash) && working.headers == old(working).headers
      ensures TwoToGo(old(at), old(depth), old(height), old(nextHash)) ==>
                && out == Done && left && atTip && depth == 1
                && passed == [old(nextHash), life[old(at) + 1].next]
    {
      hide Good, Ready, TopApplied, Linked, Fine, Names, Applied, Kept, OnTrack, OpenTurns, Ended, TwoToGo, TipTurn;
      hide GoesOn, EraBegins, Seen, Amiss, Because, Elsewhere;
      passed, atTip, left, open := [], false, false, [];
      ghost var p, i := Begin(), at;
      PassBegins(p, working, first);
      KeptTracked(p, 0);
      Begins(p);
      var hash, block;
      out, hash, block := LookUp();
      if out != Done {
        LookedUp(i, out);
        return;
      }
      out, left, open := Turns(hash, block, p, i);
    }

    /** The block the pass begins at. */
    method LookUp() returns (out: Outcome, hash: Hash, block: Block)
      requires at <= |life|
      modifies this`at
      ensures old(at) <= at <= |life| && out != Stopped && (at > old(at) || out == Died)
      ensures out == Done ==> heightOf(hash) == height && Names(hash, block) && Seen(old(at), hash)
      ensures (out == Threw ==> Amiss(old(at))) && (out == Died ==> at == |life|)
      ensures depth == 0 && height >= first && TipTurn(life, old(at), height, nextHash, heightOf) ==>
                && out == Done && at == old(at) + 2 && hash == nextHash
                && GoesOn(at, depth, height, nextHash, hash, block)
      ensures TwoToGo(old(at), depth, height, nextHash) ==>
                && out == Done && at == old(at) + 2 && hash == nextHash && block.next == life[old(at) + 1].next
                && EraBegins(at, depth, height, nextHash, hash, block)
    {
      hide GoTurn, EraBegins, TwoToGo;
      TwoAnswers(at, depth, height, nextHash);
      out, hash := AskHash(height);
      block := Block("", false);
      if out == Done {
        out, block := AskBlock(hash);
      }
    }

    lemma LookedUp(i: nat, out: Outcome)
      requires i <= at <= |life| && (out == Threw ==> Amiss(i)) && (out == Died ==> at == |life|)
      requires out == Threw || out == Died
      ensures Because(i, out, false)
    {
    }

    /** What a pass leaves behind. */
    ghost predicate Concluded(p: Pass, out: Outcome, left: bool, open: seq<bool>)
      reads this
    {
      && (out == Done || out == Stopped ==> Ended(p, left))
      && (left ==> out == Done || out == Stopped)
      && (left || out == Threw || out == Died ==> Kept(p, passed, committed, first))
      && (p.depth > 0 ==> committed == p.committed)
      && |passed| <= |open| <= |passed| + 1 && OpenTurns(p, open)
      && (out == Done && atTip ==> left && Moved())
    }

    /** The loop and what is behind it. */
    method Turns(hash0: Hash, block0: Block, ghost p: Pass, ghost i0: nat)
      returns (out: Outcome, left: bool, ghost open: seq<bool>)
      requires AtHead(hash0, block0) && Tracked(p, 0) && !atTip && passed == [] && i0 <= at && Seen(i0, hash0)
      modifies this`at, this`committed, this`working, this`depth, this`height, this`nextHash, this`passed, this`atTip
      ensures at >= old(at) && Safe() && Linked(passed, parentOf) && (passed != [] ==> passed[0] == old(nextHash))
      ensures Concluded(p, out, left, open)
      ensures Because(i0, out, left) && (out == Done && !left ==> Elsewhere(i0))
      ensures GoesOn(old(at), old(depth), old(height), old(nextHash), hash0, block0) ==>
                out == Done && left && TipLeft(old(at), old(height), hash0, old(working).headers)
      ensures EraBegins(old(at), old(depth), old(height), old(nextHash), hash0, block0) ==>
                out == Done && left && EraLeft(hash0, block0.next)
    {
      hide Good, Ready, TopApplied, Linked, Fine, Names, Applied, Kept, OnTrack, Open, OpenTurns, Settled, Ended;
      hide EraBegins, AtHead, Tracked, Because, Seen, Elsewhere, StopSeen, Concluded, GoesOn, TipLeft, EraLeft;
      var batch, hash, block, finished;
      out, left, finished, batch, hash, block, open := Loop(hash0, block0, p, i0);
      if finished {
        HeadIs(hash, block);
        SeenIs(i0, hash);
        var stopping := hash == nextHash;
        ghost var j := at;
        out := CloseBatch(hash, block, batch, p);
        LoopEnds(i0, j, hash, out);
        if out == Done && stopping {
          out := Stopped;
        }
        EndsBehind(p, out, open);
      }
    }

    /** The loop; finished says that it ended by its condition. */
    method Loop(hash0: Hash, block0: Block, ghost p: Pass, ghost i0: nat)
      returns (out: Outcome, left: bool, finished: bool, batch: nat, hash: Hash, block: Block, ghost open: seq<bool>)
      requires AtHead(hash0, block0) && Tracked(p, 0) && !atTip && passed == [] && i0 <= at && Seen(i0, hash0)
      modifies this`at, this`committed, this`working, this`depth, this`height, this`nextHash, this`passed, this`atTip
      ensures at >= old(at) && Safe() && Linked(passed, parentOf) && (passed != [] ==> passed[0] == old(nextHash))
      ensures !finished ==> Concluded(p, out, left, open) && Because(i0, out, left) && (out != Done || left)
      ensures finished ==>
                && !left && AtHead(hash, block) && Tracked(p, batch) && !atTip
                && |passed| <= |open| <= |passed| + 1 && OpenTurns(p, open)
                && if hash == nextHash then StopBy(i0, at) else Seen(i0, hash)
      ensures GoesOn(old(at), old(depth), old(height), old(nextHash), hash0, block0) ==>
                !finished && out == Done && left && TipLeft(old(at), old(height), hash0, old(working).headers)
      ensures EraBegins(old(at), old(depth), old(height), old(nextHash), hash0, block0) ==>
                !finished && out == Done && left && EraLeft(hash0, block0.next)
    {
      hide Good, Ready, TopApplied, Linked, Fine, Names, Applied, Kept, LastTurn, OnTrack, Open, OpenTurns;
      hide Settled, Ended, GoesUp, EraBegins, AtHead, Tracked, GoTurn, Fetched, Because, Seen, StopBy;
      hide Concluded, Moved, GoesOn, TipLeft, EraLeft;
      out, left, finished, open := Done, false, true, [];
      batch, hash, block := 0, hash0, block0;
      ghost var i, h, was, go := at, height, working, GoesOn(at, depth, height, nextHash, hash0, block0);
      ghost var era := EraBegins(at, depth, height, nextHash, hash0, block0);
      EraAnswers(i, depth, height, nextHash, hash0, block0);
      OpensNone(p);
      GoesOnAnswers(i, depth, height, nextHash, hash0, block0);
      HeadIs(hash, block);
      while hash == nextHash
        invariant AtHead(hash, block) && Tracked(p, batch) && !left && !atTip && i <= at <= |life|
        invariant Safe() && Linked(passed, parentOf)
        invariant if passed == [] then nextHash == old(nextHash) else passed[0] == old(nextHash)
        invariant |open| == |passed| && OpenTurns(p, open)
        invariant i0 <= at && (hash == nextHash || Seen(i0, hash))
        invariant if passed != [] then !go
                  else && at == i && hash == hash0 && block == block0 && height == h
                       && depth == old(depth) && working == was && batch == 0
        invariant era && passed != [] ==> SecondTurn(i + 5, h, hash0, hash, block0.next, block)
        decreases |life| - at
      {
        TurnOpens(p, open, batch);
        ghost var nested, j := depth > 0, at;
        var stop;
        out, block, batch, hash, left, stop := Step(hash, block, batch, p);
        SeenEarlier(i0, j, hash);
        if stop {
          StopsAt(i0, j);
          return;
        }
        open := open + [nested];
        if out != Done || left {
          finished := false;
          SeenSince(i0, j, out, left);
          EndsInside(p, out, left, open);
          LeftBehind(i, h, hash0, block0.next, was.headers);
          return;
        }
      }
    }

    /** A pass that went through one block and waits at the tip with it. */
    ghost predicate TipLeft(i: nat, h: nat, hash: Hash, headers: map<nat, Hash>)
      reads this
    {
      && atTip && at == i + 6 && passed == [hash] && height == h && nextHash == hash && working.headers == headers
    }

    /** A pass that went through a block and its child and left the header batch open. */
    ghost predicate EraLeft(hash: Hash, child: Hash)
      reads this
    {
      atTip && passed == [hash, child] && depth == 1
    }

    lemma LeftBehind(i: nat, h: nat, hash: Hash, child: Hash, headers: map<nat, Hash>)
      ensures atTip && at == i + 6 && passed == [hash] && height == h && nextHash == hash
              && working.headers == headers ==>
                TipLeft(i, h, hash, headers)
      ensures atTip && passed == [hash, child] && depth == 1 ==> EraLeft(hash, child)
    {
    }

    lemma EndsInside(p: Pass, out: Outcome, left: bool, open: seq<bool>)
      requires Kept(p, passed, committed, first) && (out != Done || left)
      requires if left then (out == Done || out == Stopped) && Ended(p, true) else out != Stopped
      requires |passed| <= |open| <= |passed| + 1 && OpenTurns(p, open)
      requires out == Done && atTip ==> Moved()
      ensures Concluded(p, out, left, open)
    {
    }

    lemma EndsBehind(p: Pass, out: Outcome, open: seq<bool>)
      requires if out == Done || out == Stopped then Ended(p, false) else Kept(p, passed, committed, first)
      requires (p.depth > 0 ==> committed == p.committed) && !atTip
      requires |passed| <= |open| <= |passed| + 1 && OpenTurns(p, open)
      ensures Concluded(p, out, false, open)
    {
    }

    lemma SeenIs(i: nat, hash: Hash)
      ensures Seen(i, hash) <==> SeenBy(i, at, hash)
    {
    }

    lemma StopsAt(i: nat, j: nat)
      requires i <= j < at <= |life| && !life[j].fails && life[j].stop
      ensures StopBy(i, at)
    {
    }

    /** Behind the loop: either Core's block is another, or a stop was seen. */
    lemma LoopEnds(i: nat, j: nat, hash: Hash, out: Outcome)
      requires i <= j <= at <= |life| && Blamed(j, out) && out != Stopped && heightOf(hash) == height
      requires hash == nextHash || SeenBy(i, j, hash)
      requires hash == nextHash ==> StopBy(i, j)
      ensures Because(i, if out == Done && hash == nextHash then Stopped else out, false)
      ensures out == Done && hash != nextHash ==> Elsewhere(i)
    {
      BlamedAmiss(i, j, out, false);
    }

    /** A pass that is to look a block up, the last below the era, and to find one child. */
    ghost predicate TwoToGo(i: nat, depth: nat, height: nat, hash: Hash)
      reads this`life
    {
      && Passes(i, 2) && life[i].hash == hash && heightOf(hash) == height
      && EraBegins(i + 2, depth, height, hash, hash, Block(life[i + 1].next, life[i + 1].bulk))
      && Names(hash, Block(life[i + 1].next, life[i + 1].bulk))
    }

    lemma TwoAnswers(i: nat, depth: nat, height: nat, hash: Hash)
      ensures TwoToGo(i, depth, height, hash) ==>
                && i + 2 <= |life| && !life[i].fails && !life[i + 1].fails
                && life[i].hash == hash && heightOf(hash) == height
                && EraBegins(i + 2, depth, height, hash, hash, Block(life[i + 1].next, life[i + 1].bulk))
                && Names(hash, Block(life[i + 1].next, life[i + 1].bulk))
    {
    }

    /** The era begins with the block after this one, and Core has just that one more. */
    ghost predicate EraBegins(i: nat, depth: nat, height: nat, nextHash: Hash, hash: Hash, block: Block)
      reads this`life
    {
      && depth == 0 && height + 1 == first && hash == nextHash && block.next != "" && !block.bulk
      && EraTurns(life, i, height, block.next, heightOf)
    }

    lemma GoesOnAnswers(i: nat, depth: nat, height: nat, nextHash: Hash, hash: Hash, block: Block)
      ensures GoesOn(i, depth, height, nextHash, hash, block) ==>
                && depth == 0 && height >= first && hash == nextHash && block.next == ""
                && GoTurn(life, i, 0, height, hash, heightOf)
    {
    }

    lemma EraAnswers(i: nat, depth: nat, height: nat, nextHash: Hash, hash: Hash, block: Block)
      ensures EraBegins(i, depth, height, nextHash, hash, block) ==>
                && Goes(i) && hash == nextHash && height + 1 == first
                && GoesUp(i + 1, depth, 0, height, block) && GoTurn(life, i + 5, 1, height + 1, block.next, heightOf)
    {
    }

    /** The first block of the era, its header in the open batch. */
    ghost predicate SecondTurn(i: nat, h: nat, first: Hash, hash: Hash, child: Hash, block: Block)
      reads this`passed, this`at, this`nextHash, this`depth, this`height
    {
      && passed == [first] && at == i && hash == nextHash == child && block.next == "" && depth == 1 && height == h + 1
    }

    /** The turn about to begin is one that ends waiting at the tip. */
    ghost predicate GoesOn(i: nat, depth: nat, height: nat, nextHash: Hash, hash: Hash, block: Block)
      reads this`life
    {
      && depth == 0 && height >= first && hash == nextHash && block.next == ""
      && GoTurn(life, i, 0, height, hash, heightOf)
    }

    ghost function Begin(): Pass
      reads this
    {
      Pass(height, working.effects, committed, depth)
    }

    /** How a pass ends without an error. */
    ghost predicate Ended(p: Pass, left: bool)
      reads this
    {
      && Sound() && Settled() && height >= p.from
      && working.effects == p.effects + Applied(passed, p.from, first)
      && depth == p.depth + if left && Pending(p.from, height, first) > 0 then 1 else 0
    }

    ghost predicate OpenTurns(p: Pass, open: seq<bool>) {
      forall k :: 0 <= k < |open| && p.from + k >= first ==> open[k] == (p.depth > 0 || Swallowed(p.from, first))
    }

    lemma TurnOpens(p: Pass, open: seq<bool>, batch: nat)
      requires Tracked(p, batch) && |open| == |passed| && OpenTurns(p, open)
      ensures OpenTurns(p, open + [depth > 0])
    {
      if height >= first {
        OpenInEra(p.from, height, first);
      }
    }

    lemma HeadIs(hash: Hash, block: Block)
      requires AtHead(hash, block)
      ensures Safe() && Linked(passed, parentOf) && heightOf(hash) == height
    {
    }

    lemma OpensNone(p: Pass)
      ensures OpenTurns(p, [])
    {
    }

    lemma Begins(p: Pass)
      ensures OpenTurns(p, []) && Linked([], parentOf)
    {
    }

    lemma KeptTracked(p: Pass, batch: nat)
      requires Tracked(p, batch)
      ensures Kept(p, passed, committed, first) && (p.depth > 0 ==> committed == p.committed)
    {
    }

    /** Behind the loop. */
    method CloseBatch(hash: Hash, block: Block, batch: nat, ghost p: Pass) returns (out: Outcome)
      requires AtHead(hash, block) && !atTip && Tracked(p, batch)
      modifies this`at, this`depth, this`committed, this`working
      ensures at >= old(at) && Safe() && out != Stopped && Blamed(old(at), out)
      ensures out == Done ==> Ended(p, false)
      ensures out != Done ==> Kept(p, passed, committed, first)
      ensures p.depth > 0 ==> committed == p.committed
    {
      hide Good, Ready, Applied;
      out := Done;
      if batch > 0 {
        out := EndTransaction();
      }
    }

    // Passes and processes.

    /** What a start and a recovery make of a store: they pick up at the highest stored header
        and discard what was written from there on. */
    ghost function PickedUp(s: seq<Answer>, i: nat, c: Copy, depth: nat): Option<Stand> {
      if i + 2 >= |s| || s[i].fails || s[i + 1].fails then None
      else
        var h := heightOf(s[i + 1].hash);
        if IsTop(c.headers, h) then Some(Stand(Discarded(c, h, depth, s[i + 2]), h, s[i + 1].hash, i + 3)) else None
    }

    method PickUp() returns (out: Outcome)
      requires Sound()
      modifies this`at, this`committed, this`working, this`height, this`nextHash, this`once
      ensures at >= old(at) && (at > old(at) || out == Died) && Sound() && out != Stopped
      ensures var r := PickedUp(life, old(at), old(working), depth);
              (out == Done <==> r.Some?) && (out == Done ==> Covered() && r.value == Here())
      ensures out == Done ==>
                && height in old(working).headers && (forall h :: h in old(working).headers ==> h <= height)
                && heightOf(nextHash) == height && at >= 2 && life[at - 2].hash == nextHash
                && working == Discarded(old(working), height, depth, life[at - 1])
      ensures out != Done ==> working == old(working)
      ensures Keeps(old(once), old(depth), out)
      ensures old(depth) > 0 ==> committed == old(committed)
      ensures (out == Died ==> at == |life|) && (out == Threw ==> Baffled(old(at)))
    {
      hide Good, Discarded, IsTop, Reaches;
      var a;
      out, a := Ask();
      if out != Done {
        return;
      }
      height := TopHeight(working.headers);
      ghost var top := height;
      TopIn(working.headers, top);
      FineHeight(working, height);
      var hash;
      out, hash := AskHash(height);
      if at == old(at) + 2 {
        OneTop(working.headers, top, heightOf(hash));
      }
      if out != Done {
        return;
      }
      nextHash := hash;
      out := ClearBlocksAboveHeight();
    }

    lemma TopIn(headers: map<nat, Hash>, top: nat)
      requires IsTop(headers, top)
      ensures top in headers && forall h :: h in headers ==> h <= top
    {
    }

    lemma OneTop(headers: map<nat, Hash>, a: nat, b: nat)
      requires IsTop(headers, a)
      ensures IsTop(headers, b) ==> a == b
    {
    }

    // src/ChainAnalyzer.cpp:440-549
    /** One pass: recover if the last one failed, rewind, sync; whatever is thrown rolls back
        the open transaction and leaves the recovery to the next pass. Once-only application
        is lost in exactly the passes that begin their sync at a height applied already, and
        the first block of the era such a pass processes is applied twice. While a transaction
        stays open from an earlier pass nothing becomes durable. */
    method MainFunction() returns (out: Outcome)
      requires Rest()
      modifies this`at, this`committed, this`working, this`depth, this`height, this`nextHash, this`lastPassFailed
      modifies this`passed, this`atTip, this`once, this`doubles
      ensures at >= old(at) && (at > old(at) || out == Died) && Safe()
      ensures out == Done || out == Stopped || out == Died
      ensures out != Died ==> Rest()
      ensures once == (old(once) && !old(Doubles()))
      ensures doubles == old(doubles) + if old(Doubles()) then 1 else 0
      ensures out == Done && !lastPassFailed ==> Settled() && (atTip ==> Moved())
      ensures out == Died ==> at == |life|
      ensures out == Stopped ==> !lastPassFailed && StopSeen(old(at))
      ensures out == Done && lastPassFailed ==> Amiss(old(at)) || (old(depth) > 0 && old(Prepared()).None?)
      ensures out == Done && !lastPassFailed && !atTip ==> Elsewhere(old(at)) || ShutDown(old(at))
      ensures old(depth) > 0 ==> committed == old(committed)
      ensures old(Doubles()) && !lastPassFailed && out != Died && EraReached(old(Prepared()).value.height) ==>
                !Lined(working.effects, first)
      ensures passed != [] ==> old(Prepared()).Some? && passed[0] == old(Prepared()).value.next
      ensures old(depth) == 0 && old(height) >= first && !old(lastPassFailed)
              && StillTurn(life, old(at), old(height), old(nextHash), heightOf)
              ==> out == Done && at == old(at) + 9 && AtTipAgain(old(height), old(nextHash), old(committed))
    {
      hide Good, Reaches, Lined, TipTurn, AtTipAgain, StillTurn, Moved, Prepared, Settled, Amiss, Elsewhere, StopSeen;
      hide ShutDown, Doubles, EraReached;
      out := OnePass();
      if out == Threw {
        AbortTransaction();
        lastPassFailed := true;
        out := Done;
      }
    }

    /** The pass up to where something is thrown. */
    method OnePass() returns (out: Outcome)
      requires Rest()
      modifies this`at, this`committed, this`working, this`depth, this`height, this`nextHash, this`lastPassFailed
      modifies this`passed, this`atTip, this`once, this`doubles
      ensures at >= old(at) && (at > old(at) || out == Died) && Safe()
      ensures out == Done || out == Stopped ==> Rest() && !lastPassFailed && Settled()
      ensures once == (old(once) && !old(Doubles()))
      ensures doubles == old(doubles) + if old(Doubles()) then 1 else 0
      ensures out == Done && atTip ==> Moved()
      ensures out == Died ==> at == |life|
      ensures out == Stopped ==> StopSeen(old(at))
      ensures out == Threw ==> Amiss(old(at)) || (old(depth) > 0 && old(Prepared()).None?)
      ensures out == Done && !atTip ==> Elsewhere(old(at)) || ShutDown(old(at))
      ensures old(depth) > 0 ==> committed == old(committed)
      ensures old(Doubles()) && (out == Done || out == Stopped) && EraReached(old(Prepared()).value.height) ==>
                !Lined(working.effects, first)
      ensures passed != [] ==> old(Prepared()).Some? && passed[0] == old(Prepared()).value.next
      ensures old(depth) == 0 && old(height) >= first && !old(lastPassFailed)
              && StillTurn(life, old(at), old(height), old(nextHash), heightOf)
              ==> out == Done && at == old(at) + 9 && AtTipAgain(old(height), old(nextHash), old(committed))
    {
      hide Good, Reaches, Lined, TipTurn, AtTipAgain, StillTurn, Moved, Prepared, Settled, Amiss, Elsewhere, StopSeen;
      hide ShutDown, EraReached;
      ghost var i := at;
      StillStays();
      out := Prepare();
      if out == Done {
        ghost var j := at;
        out := Proceed();
        Earlier(i, j);
      } else {
        passed := [];
        BaffledAmiss(i);
      }
    }

    lemma BaffledAmiss(i: nat)
      ensures Baffled(i) ==> Amiss(i)
    {
    }

    /** The sync of a pass, whatever it begins on. */
    method Proceed() returns (out: Outcome)
      requires Sound() && Covered() && !lastPassFailed
      modifies this`at, this`committed, this`working, this`depth, this`height, this`nextHash
      modifies this`passed, this`atTip, this`once, this`doubles
      ensures at >= old(at) && Safe()
      ensures once == (old(once) && !Reaches(old(working), old(height)))
      ensures doubles == old(doubles) + if Reaches(old(working), old(height)) then 1 else 0
      ensures out == Done || out == Stopped ==> Sound() && Covered() && Settled()
      ensures out == Done && atTip ==> Moved()
      ensures old(depth) > 0 ==> committed == old(committed)
      ensures (out == Threw ==> Amiss(old(at))) && (out == Stopped ==> StopSeen(old(at)))
      ensures out == Died ==> at == |life|
      ensures out == Done && !atTip ==> Elsewhere(old(at)) || ShutDown(old(at))
      ensures passed != [] ==> passed[0] == old(nextHash)
      ensures Reaches(old(working), old(height)) && (out == Done || out == Stopped) && EraReached(old(height)) ==>
                !Lined(working.effects, first)
      ensures old(depth) == 0 && old(height) >= first
              && TipTurn(life, old(at), old(height), old(nextHash), heightOf) ==>
                out == Done && at == old(at) + 8 && AtTipAgain(old(height), old(nextHash), old(committed))
    {
      hide Good, Ready, TopApplied, Lined, Linked, Applied, Kept, TipTurn, OpenTurns, Reaches;
      if once {
        ReadyOrReached(working, first, height);
      }
      once := once && !Reaches(working, height);
      doubles := doubles + if Reaches(working, height) then 1 else 0;
      ghost var h, was := height, working;
      var left;
      ghost var open;
      out, left, open := PhaseSync();
      if out == Done || out == Stopped {
        SettledCovers(working, height, atTip);
        Applying(passed, h, first);
        SecondTime(was, working.effects, passed, first, h);
      }
    }

    /** The pass that began its sync at that height has processed a block of the era. */
    ghost predicate EraReached(from: nat)
      reads this`passed
    {
      passed != [] && from + |passed| > first
    }

    lemma SettledCovers(c: Copy, h: nat, atTip: bool)
      ensures (if atTip && h >= first then TopApplied(c, first, h) else Ready(c, first, h)) ==> h <= first + |c.effects|
    {
    }

    /** A pass that has applied the block of a height and waits at the tip with it. */
    ghost predicate AtTipAgain(h: nat, hash: Hash, before: Copy)
      reads this
    {
      && !lastPassFailed && atTip && height == h && nextHash == hash && depth == 0
      && committed == before.(effects := before.effects + [Effect(h, hash, true)])
    }

    lemma StillStays()
      ensures !lastPassFailed && StillTurn(life, at, height, nextHash, heightOf) ==>
                && Prepared() == Some(Stand(working, height, nextHash, at + 1))
                && TipTurn(life, at + 1, height, nextHash, heightOf)
    {
      hide TipTurn;
      assert TipTurn(life, at + 1, height, nextHash, heightOf) ==> heightOf(nextHash) == height by {
        TipHeight(life, at + 1, height, nextHash);
      }
    }

    lemma TipHeight(life: seq<Answer>, i: nat, height: nat, hash: Hash)
      ensures TipTurn(life, i, height, hash, heightOf) ==> heightOf(hash) == height
    {
    }

    lemma Applying(passed: seq<Hash>, from: nat, first: nat)
      ensures from >= first && |passed| == 1 ==> Applied(passed, from, first) == [Effect(from, passed[0], true)]
    {
      if from >= first {
        AllApplied(passed, from, first);
      }
    }

    /** Recovery where the last pass failed, then the rewind. */
    method Prepare() returns (out: Outcome)
      requires Rest()
      modifies this`at, this`committed, this`working, this`height, this`nextHash, this`lastPassFailed, this`once
      ensures at >= old(at) && (at > old(at) || out == Died) && Sound() && out != Stopped
      ensures out == Done <==> old(Prepared()).Some?
      ensures out == Done ==> Covered() && !lastPassFailed && old(Prepared()).value == Here()
      ensures Keeps(old(once), old(depth), out)
      ensures old(depth) > 0 ==> committed == old(committed)
      ensures depth == old(depth) && (depth == 0 ==> committed == working)
      ensures (out == Died ==> at == |life|) && (out == Threw && depth == 0 ==> Baffled(old(at)))
    {
      hide Good, Reaches, Rewound, PickedUp;
      out := Done;
      if lastPassFailed {
        out := PickUp();
      }
      if out == Done {
        lastPassFailed := false;
        out := PhaseRewind();
      }
    }

    // src/ChainAnalyzer.cpp:389-429
    /** What going back to just below a height to index it again makes of a store. */
    ghost function Backfilled(s: seq<Answer>, st: Stand, activation: nat): Option<Stand> {
      if activation <= 1 || st.height < activation then Some(st)
      else if st.at + 1 >= |s| || s[st.at + 1].fails || heightOf(s[st.at + 1].hash) != activation - 1 then None
      else Some(Stand(Discarded(st.copy, activation - 1, 0, s[st.at]), activation - 1, s[st.at + 1].hash, st.at + 2))
    }

    /** The marker that says it is done, and pruning, are the caller's affair. */
    method Backfill(activation: nat) returns (out: Outcome)
      requires Sound() && Covered() && depth == 0
      modifies this`at, this`committed, this`working, this`height, this`nextHash, this`once
      ensures at >= old(at) && Sound() && out != Stopped && once == old(once)
      ensures var r := Backfilled(life, old(Here()), activation);
              (out == Done <==> r.Some?) && (out == Done ==> Covered() && r.value == Here())
      ensures working == old(working)
              || (activation > 1 && at > old(at)
                  && working == Discarded(old(working), activation - 1, 0, life[old(at)]))
      ensures if activation > 1 && old(height) >= activation then
                out == Done ==>
                  && height == activation - 1 == heightOf(nextHash) && at == old(at) + 2
                  && nextHash == life[at - 1].hash && working == Discarded(old(working), height, 0, life[at - 2])
              else
                && out == Done && at == old(at) && height == old(height) && nextHash == old(nextHash)
                && working == old(working)
      ensures (out == Died ==> at == |life|) && (out == Threw ==> Baffled(old(at)))
    {
      hide Good, Discarded, Reaches;
      out := Done;
      if activation <= 1 || height < activation {
        return;
      }
      height := activation - 1;
      out := ClearBlocksAboveHeight();
      if out == Done {
        var hash;
        out, hash := AskHash(height);
        if out == Done {
          nextHash := hash;
        }
      }
    }

    /** What a process that starts makes of the durable store. */
    ghost function Started(s: seq<Answer>, c: Copy, backfill: Option<nat>): Option<Stand> {
      match PickedUp(s, 0, c, 0)
      case Some(st) => if backfill.Some? then Backfilled(s, st, backfill.value) else Some(st)
      case None => None
    }

    // src/ChainAnalyzer.cpp:274-326
    /** A process starts: what a crash left is repaired before anything else. It knows what
        had become durable and nothing more. A discard that fails is passed over; that leaves
        the height it picks up at applied exactly when it was. */
    method Start(life: seq<Answer>, backfill: Option<nat>) returns (out: Outcome)
      requires Safe()
      modifies this`life, this`at, this`committed, this`working, this`depth, this`height, this`nextHash
      modifies this`lastPassFailed, this`passed, this`atTip, this`once
      ensures Safe() && (out == Done || out == Died) && this.life == life && once == old(once) && depth == 0
      ensures var r := Started(life, old(committed), backfill);
              (out == Done <==> r.Some?) && (out == Done ==> r.value == Here())
      ensures out == Done ==> Rest() && !lastPassFailed && !atTip && committed == working
      ensures out == Died ==> at == |life| || Baffled(0)
      ensures Within(committed.effects, old(committed.effects))
      ensures out == Done && backfill.None? ==>
                && 0 < at <= |life|
                && (Reaches(working, height) <==> !life[at - 1].deletes.AllDone? && Reaches(old(committed), height))
    {
      hide Good, Reaches, Within, Started, Discarded;
      working, depth, this.life, at, lastPassFailed, atTip, passed := committed, 0, life, 0, false, false, [];
      out := Repair(backfill);
      if out != Done {
        out := Died;
      }
    }

    method Repair(backfill: Option<nat>) returns (out: Outcome)
      requires Sound() && depth == 0 && at == 0
      modifies this`at, this`committed, this`working, this`height, this`nextHash, this`once
      ensures Sound() && out != Stopped && once == old(once)
      ensures (out == Died ==> at == |life|) && (out == Threw ==> Baffled(old(at)))
      ensures var r := Started(life, old(working), backfill);
              (out == Done <==> r.Some?) && (out == Done ==> Covered() && r.value == Here())
      ensures Within(working.effects, old(working.effects))
      ensures out == Done && backfill.None? ==>
                && 0 < at
                && (Reaches(working, height) <==> !life[at - 1].deletes.AllDone? && Reaches(old(working), height))
    {
      hide Good, Within, Discarded, Reaches, Backfilled;
      out := PickUp();
      WithinItself(old(working));
      if out != Done {
        return;
      }
      NothingNew(old(working), height, life[at - 1]);
      ReachesDiscarded(old(working), height, 0, life[at - 1]);
      if backfill.Some? {
        ghost var was, i := working, at;
        out := Backfill(backfill.value);
        if working != was {
          NothingNew(was, backfill.value - 1, life[i]);
          StillWithin(working.effects, was.effects, old(working.effects));
        }
      }
    }
  }

  /** After a discard its height is reached exactly when it failed and something was there. */
  lemma {:induction false} ReachesDiscarded(c: Copy, height: nat, depth: nat, a: Answer)
    ensures Reaches(Discarded(c, height, depth, a), height) <==> !Deletable(a, depth) && Reaches(c, height)
  {
    ReachesAfter(c, height);
    hide Reaches, Cleared, Worn;
  }

  ghost predicate Within(effects: seq<Effect>, before: seq<Effect>) {
    forall e :: e in effects ==> e in before
  }

  lemma WithinItself(c: Copy)
    ensures Within(c.effects, c.effects)
  {
  }

  lemma NothingWithin(effects: seq<Effect>)
    ensures Within(effects, []) ==> effects == []
  {
    assert effects != [] ==> effects[0] in effects;
  }

  lemma StillWithin(a: seq<Effect>, b: seq<Effect>, c: seq<Effect>)
    requires Within(a, b) && Within(b, c)
    ensures Within(a, c)
  {
  }

  /** A discard outside a transaction brings in nothing. */
  lemma {:induction false} NothingNew(c: Copy, height: nat, a: Answer)
    ensures Within(Discarded(c, height, 0, a).effects, c.effects)
  {
    BelowIn(c.effects, height);
  }

  /** A pass that begins at a height already reached applies the first block of the era it
      processes for the second time. */
  lemma {:induction false} SecondTime(before: Copy, effects: seq<Effect>, passed: seq<Hash>, first: nat, height: nat)
    requires effects == before.effects + Applied(passed, height, first)
    ensures passed != [] && height + |passed| > first && Reaches(before, height) ==> !Lined(effects, first)
  {
    if passed != [] && height + |passed| > first && Reaches(before, height) {
      AppliedHead(passed, height, first);
      var k :| 0 <= k < |before.effects| && before.effects[k].height >= height;
      assert effects[k] == before.effects[k];
      assert effects[|before.effects|] == Applied(passed, height, first)[0];
    }
  }

  /** A pass whose era begins inside a batch of headers, and the next process: unless the
      pass came to the end behind its loop, that process knows no effect that was not there
      before the pass, however many blocks of the era the pass had gone through. */
  method EraLost(analyzer: ChainAnalyzer, life: seq<Answer>, backfill: Option<nat>) returns (ended: bool)
    requires analyzer.Sound() && analyzer.height >= 1 && analyzer.depth == 0
    requires analyzer.once ==> Ready(analyzer.working, analyzer.first, analyzer.height)
    requires Swallowed(analyzer.height, analyzer.first)
    modifies analyzer
    ensures analyzer.Safe()
    ensures !ended ==> analyzer.life == life && Within(analyzer.working.effects, old(analyzer.committed.effects))
    ensures !ended ==> Within(analyzer.committed.effects, old(analyzer.committed.effects))
  {
    hide Good, Ready;
    var out, left;
    ghost var open;
    out, left, open := analyzer.PhaseSync();
    ended := !left && (out == Done || out == Stopped);
    if !ended {
      out := analyzer.Start(life, backfill);
    }
  }

  function HeightOf(hash: Hash): nat {
    if hash == "a" then 1 else 2
  }

  /** The answers of a start, a look for forks and a pass that goes from block 1 into an era
      that begins at block 2 and is left because Core has another block 2. */
  function IntoEra(): (life: seq<Answer>) {
    seq(15, k => Answer(false, false, if k == 7 then "b" else if k == 14 then "c" else "a", if k == 5 then "b" else "",
                        false, Nothing, AllDone))
  }

  lemma IntoEraStarts()
    ensures var life := IntoEra();
            |life| == 15 && !life[0].fails && !life[1].fails && life[1].hash == "a" && life[2].deletes == AllDone
    ensures !IntoEra()[3].fails && IntoEra()[3].hash == "a" && IntoEra()[5].next == "b" && !IntoEra()[5].bulk
  {
  }

  lemma {:induction false} IntoEraTurns(analyzer: ChainAnalyzer)
    requires analyzer.first == 2 && analyzer.heightOf == HeightOf && analyzer.parentOf == (_ => "a")
    requires analyzer.life == IntoEra()
    ensures analyzer.TwoToGo(4, 0, 1, "a")
  {
    assert EraTurns(IntoEra(), 6, 1, "b", HeightOf);
  }

  lemma {:induction false} IntoEraKept(p: Pass, committed: Copy)
    requires p.from == 1 && p.depth == 0 && p.effects == [] && Kept(p, ["a", "b"], committed, 2)
    ensures committed.effects == [] && Applied(["a", "b"], 1, 2) == [Effect(2, "b", true)]
  {
    NoneApplied(["a"], 1, 2);
    TurnApplied(["a"], "b", 1, 2);
    assert ["a"] + ["b"] == ["a", "b"];
  }

  method StartIntoEra() returns (analyzer: ChainAnalyzer)
    ensures fresh(analyzer) && analyzer.Sound() && analyzer.first == 2 && analyzer.TwoToGo(4, 0, 1, "a")
    ensures analyzer.life == IntoEra() && analyzer.at == 4
    ensures analyzer.depth == 0 && analyzer.height == 1 && analyzer.nextHash == "a"
    ensures analyzer.working == Copy(map[1 := "a"], [])
    ensures analyzer.once ==> Ready(analyzer.working, analyzer.first, analyzer.height)
  {
    hide IntoEra, Good;
    IntoEraStarts();
    analyzer := new ChainAnalyzer(2, false, "a", HeightOf, _ => "a");
    var out := analyzer.Start(IntoEra(), None);
    assert analyzer.working == Copy(map[1 := "a"], []);
    IntoEraTurns(analyzer);
    out := analyzer.Prepare();
  }

  method GoIntoEra() returns (analyzer: ChainAnalyzer, ghost passed: seq<Hash>, ghost applied: seq<Effect>)
    ensures fresh(analyzer) && analyzer.Safe() && analyzer.first == 2
    ensures passed == ["a", "b"] && applied == [Effect(2, "b", true)]
    ensures analyzer.committed.effects == []
  {
    hide Good, Ready, Kept, Applied, IntoEra, TipTurn, Linked, HeightOf;
    hide ChainAnalyzer.TwoToGo, ChainAnalyzer.OpenTurns, ChainAnalyzer.Settled, ChainAnalyzer.Moved;
    analyzer := StartIntoEra();
    ghost var p := analyzer.Begin();
    IntoEraStarts();
    var out, left;
    ghost var open;
    out, left, open := analyzer.PhaseSync();
    passed, applied := analyzer.passed, analyzer.working.effects;
    IntoEraKept(p, analyzer.committed);
  }

  /** No answer fails, the pass goes through blocks 1 and 2, and whatever comes next the
      effects of block 2 are lost. */
  method EraLostOnce(next: seq<Answer>, backfill: Option<nat>)
    returns (analyzer: ChainAnalyzer, ghost passed: seq<Hash>, ghost applied: seq<Effect>)
    ensures fresh(analyzer) && analyzer.Safe() && analyzer.first == 2
    ensures passed == ["a", "b"] && applied == [Effect(2, "b", true)]
    ensures analyzer.committed.effects == []
  {
    hide Good, Ready;
    analyzer, passed, applied := GoIntoEra();
    var out := analyzer.Start(next, backfill);
    NothingWithin(analyzer.committed.effects);
  }

  /** The answers of a start and two passes that name one block, but for the last of each
      pass, which names another of the same height. */
  function Wavering(n: nat, deletes: Deletes): (life: seq<Answer>) {
    seq(n, k => Answer(false, false, if k == 11 || k == 20 then "b" else "a", "", false, Nothing,
                       if k == 2 then deletes else AllDone))
  }

  ghost predicate AllName(life: seq<Answer>, i: nat, j: nat, hash: Hash) {
    j <= |life| && forall k :: i <= k < j ==>
                     !life[k].fails && !life[k].stop && life[k].next == "" && life[k].hash == hash
  }

  lemma NamesTurn(life: seq<Answer>, at: nat)
    requires AllName(life, at, at + 8, "a") && AllName(life, at + 8, at + 9, "b")
    ensures StillTurn(life, at, 1, "a", _ => 1)
  {
  }

  lemma {:induction false} WaveringTurn(n: nat, deletes: Deletes, at: nat)
    requires at + 9 <= n && (at == 3 || at == 12)
    ensures StillTurn(Wavering(n, deletes), at, 1, "a", _ => 1)
  {
    hide StillTurn;
    NamesTurn(Wavering(n, deletes), at);
  }

  lemma {:induction false} WaveringTurns(n: nat, deletes: Deletes)
    requires n >= 12
    ensures StillTurn(Wavering(n, deletes), 3, 1, "a", _ => 1)
    ensures n >= 21 ==> StillTurn(Wavering(n, deletes), 12, 1, "a", _ => 1)
  {
    hide StillTurn, Wavering;
    WaveringTurn(n, deletes, 3);
    if n >= 21 {
      WaveringTurn(n, deletes, 12);
    }
  }

  lemma WaveringStarts(n: nat, deletes: Deletes)
    requires n >= 12
    ensures var life := Wavering(n, deletes);
            |life| == n && !life[0].fails && !life[1].fails && life[1].hash == "a" && life[2].deletes == deletes
  {
  }

  const OneBlock := Copy(map[1 := "a"], [Effect(1, "a", true)])

  method FirstPass(n: nat) returns (analyzer: ChainAnalyzer)
    requires n >= 12
    ensures fresh(analyzer) && analyzer.Rest() && analyzer.life == Wavering(n, AllDone) && analyzer.at == 12
    ensures analyzer.first == 1 && analyzer.heightOf == (_ => 1) && !analyzer.lastPassFailed
    ensures analyzer.height == 1 && analyzer.nextHash == "a" && analyzer.depth == 0 && analyzer.committed == OneBlock
  {
    hide StillTurn, Wavering, Good;
    WaveringTurns(n, AllDone);
    WaveringStarts(n, AllDone);
    analyzer := new ChainAnalyzer(1, false, "a", _ => 1, _ => "");
    var out := analyzer.Start(Wavering(n, AllDone), None);
    assert analyzer.working == Copy(map[1 := "a"], []);
    out := analyzer.MainFunction();
    assert OneBlock.effects == [] + [Effect(1, "a", true)];
  }

  ghost predicate AppliedTwice(c: Copy) {
    c.effects == [Effect(1, "a", true), Effect(1, "a", true)] && !Lined(c.effects, 1)
  }

  lemma OneAndOne()
    ensures AppliedTwice(OneBlock.(effects := OneBlock.effects + [Effect(1, "a", true)]))
  {
    TwiceIsNotGood(OneBlock, 1, 1, "a");
  }

  /** No answer fails, and yet: Core has another block of the height for a moment, and the
      block is applied twice. */
  method BlockTwice() returns (analyzer: ChainAnalyzer)
    ensures fresh(analyzer) && analyzer.Safe() && analyzer.first == 1
    ensures analyzer.life == Wavering(21, AllDone) && AppliedTwice(analyzer.committed)
  {
    hide StillTurn, Wavering, Good, Lined, AppliedTwice;
    WaveringTurns(21, AllDone);
    OneAndOne();
    analyzer := FirstPass(21);
    var out := analyzer.MainFunction();
  }

  /** The same where nothing but a discard fails: the block a process left complete is
      neither discarded by the next nor passed over. */
  method BlockTwiceAfterDiscard() returns (analyzer: ChainAnalyzer)
    ensures fresh(analyzer) && analyzer.Safe() && analyzer.first == 1
    ensures analyzer.life == Wavering(12, FailsAfter(0)) && AppliedTwice(analyzer.committed)
  {
    hide StillTurn, Wavering, Good, Lined, AppliedTwice;
    WaveringTurns(12, FailsAfter(0));
    WaveringStarts(12, FailsAfter(0));
    OneAndOne();
    analyzer := FirstPass(12);
    var out := analyzer.Start(Wavering(12, FailsAfter(0)), None);
    out := analyzer.MainFunction();
  }

  // When a pass begins at a height already applied.

  /** What the branch of a fork leaves reaches the fork exactly when its discard failed and
      something was there. */
  lemma {:induction false} BackReaches(analyzer: ChainAnalyzer, s: seq<Answer>, i: nat, c: Copy, h: nat, depth: nat)
    requires analyzer.Back(s, i, c, h, depth).Some?
    ensures var st, stop := analyzer.Back(s, i, c, h, depth).value, analyzer.Bottom(s, i, c.headers, h).value.0;
            Reaches(st.copy, st.height) <==>
            stop in c.headers && !Deletable(s[st.at - 1], depth) && Reaches(c, stop)
  {
    hide Reaches, Cleared, Emptied, Deletable, Discarded, ChainAnalyzer.Bottom;
    var (stop, j) := analyzer.Bottom(s, i, c.headers, h).value;
    if stop in c.headers {
      ReachesDiscarded(c, stop, depth, s[j]);
    } else {
      NothingReaches(c);
    }
  }

  lemma NothingReaches(c: Copy)
    ensures !Reaches(Emptied(c), 1)
  {
  }

  /** A rewind ends at a height applied already exactly when Core answers with the expected
      block and that is applied, or when there is a fork, its discard fails, and something
      from the fork on is applied. */
  lemma {:induction false} RewindReaches(analyzer: ChainAnalyzer, s: seq<Answer>, st: Stand, depth: nat)
    requires analyzer.Rewound(s, st, depth).Some?
    ensures var r, stop := analyzer.Rewound(s, st, depth).value, Fork(analyzer, s, st);
            Reaches(r.copy, r.height) <==>
            if s[st.at].hash == st.next then Reaches(st.copy, st.height)
            else stop in st.copy.headers && !Deletable(s[r.at - 1], depth) && Reaches(st.copy, stop)
  {
    hide Reaches, Deletable, Discarded, Emptied, ChainAnalyzer.Bottom;
    if s[st.at].hash != st.next {
      BackReaches(analyzer, s, st.at + 1, st.copy, st.height, depth);
    }
  }

  /** Where the way down from a stand ends. */
  ghost function Fork(analyzer: ChainAnalyzer, s: seq<Answer>, st: Stand): nat {
    match analyzer.Bottom(s, st.at + 1, st.copy.headers, st.height)
    case Some((stop, _)) => stop
    case None => 0
  }

  /** Whether a pass begins at a height applied already is decided by where its rewind starts:
      after a pass that ended without an error where that one stood, and else where the recovery
      picks up, which is applied exactly when its discard fails and something was there. */
  lemma {:induction false} DoublesExactly(analyzer: ChainAnalyzer)
    requires analyzer.Prepared().Some?
    ensures !analyzer.lastPassFailed ==>
              Stands(analyzer, Stand(analyzer.working, analyzer.height, analyzer.nextHash, analyzer.at))
    ensures analyzer.lastPassFailed ==>
              && var picked := analyzer.PickedUp(analyzer.life, analyzer.at, analyzer.working, analyzer.depth);
                 picked.Some? && Stands(analyzer, picked.value)
                 && (Reaches(picked.value.copy, picked.value.height) <==>
                       && !Deletable(analyzer.life[analyzer.at + 2], analyzer.depth)
                       && Reaches(analyzer.working, picked.value.height))
  {
    hide Reaches, Deletable, Fork, Discarded, Emptied, ChainAnalyzer.Bottom;
    if !analyzer.lastPassFailed {
      RewindReaches(analyzer, analyzer.life, Stand(analyzer.working, analyzer.height, analyzer.nextHash, analyzer.at),
                    analyzer.depth);
    } else {
      var picked := analyzer.PickedUp(analyzer.life, analyzer.at, analyzer.working, analyzer.depth).value;
      ReachesDiscarded(analyzer.working, picked.height, analyzer.depth, analyzer.life[analyzer.at + 2]);
      RewindReaches(analyzer, analyzer.life, picked, analyzer.depth);
    }
  }

  /** The pass rewinds from this stand, and begins at a height applied already exactly when
      that is what the rewind ends at. */
  ghost predicate Stands(analyzer: ChainAnalyzer, st: Stand)
    reads analyzer
  {
    var s, r, stop := analyzer.life, analyzer.Prepared(), Fork(analyzer, analyzer.life, st);
    && r.Some? && st.at < |s| && 0 < r.value.at <= |s|
    && (analyzer.Doubles() <==>
          if s[st.at].hash == st.next then Reaches(st.copy, st.height)
          else stop in st.copy.headers && !Deletable(s[r.value.at - 1], analyzer.depth) && Reaches(st.copy, stop))
  }

  /** Core's other block of the height and then the old one again is what a kind life rules
      out. */
  lemma {:induction false} FlipIsUnkind(analyzer: ChainAnalyzer)
    requires analyzer.Moved() && analyzer.Stays()
    ensures !Kind(analyzer.life, analyzer.heightOf)
  {
    assert TakenBack(analyzer.life, analyzer.at - 1, analyzer.heightOf);
  }

  /** In a kind life no pass begins at a height applied already. */
  lemma {:induction false} KindNeverDoubles(analyzer: ChainAnalyzer)
    requires Kind(analyzer.life, analyzer.heightOf) && analyzer.Rest() && analyzer.once
    requires AtEase(analyzer)
    ensures !analyzer.Doubles()
  {
    var s, c, depth := analyzer.life, analyzer.working, analyzer.depth;
    var st := Stand(c, analyzer.height, analyzer.nextHash, analyzer.at);
    if analyzer.lastPassFailed {
      var picked := analyzer.PickedUp(s, analyzer.at, c, depth);
      if picked.Some? {
        ReachesDiscarded(c, picked.value.height, depth, s[analyzer.at + 2]);
        CleanRewind(analyzer, s, picked.value, depth);
      }
    } else {
      if analyzer.Stays() {
        if analyzer.atTip {
          FlipIsUnkind(analyzer);
        }
        ReadyOrReached(c, analyzer.first, analyzer.height);
      }
      CleanRewind(analyzer, s, st, depth);
    }
  }

  /** With no failing discard a rewind ends where nothing is applied, unless it began where
      something was and Core has the expected block. */
  lemma {:induction false} CleanRewind(analyzer: ChainAnalyzer, s: seq<Answer>, st: Stand, depth: nat)
    requires Discards(s)
    ensures var r := analyzer.Rewound(s, st, depth);
            r.Some? && (s[st.at].hash == st.next ==> !Reaches(st.copy, st.height)) ==>
              !Reaches(r.value.copy, r.value.height)
  {
    hide Reaches, ChainAnalyzer.Bottom, ChainAnalyzer.Back;
    var r := analyzer.Rewound(s, st, depth);
    if r.Some? && s[st.at].hash != st.next {
      BackReaches(analyzer, s, st.at + 1, st.copy, st.height, depth);
      DiscardsAt(analyzer, s, st.at + 1, st.copy, st.height, depth);
    }
  }

  lemma DiscardsAt(analyzer: ChainAnalyzer, s: seq<Answer>, i: nat, c: Copy, h: nat, depth: nat)
    requires Discards(s) && analyzer.Back(s, i, c, h, depth).Some?
    ensures Deletable(s[analyzer.Back(s, i, c, h, depth).value.at - 1], depth)
  {
  }

  /** Any number of processes, each ending by a crash at any moment or a stop, over a Core
      and a store that may do anything. Once-only application is kept if and only if no pass
      began at a height applied already, which in kind lives none does. Then what is stored is
      good at every moment, even had the process died in the middle of a block: every block
      below the highest header is applied exactly once, and all that can be left of that
      height itself is discarded before it is replayed. */
  method Run(analyzer: ChainAnalyzer, lives: seq<(seq<Answer>, Option<nat>)>)
    requires analyzer.Safe()
    modifies analyzer
    ensures analyzer.Safe() && analyzer.doubles >= old(analyzer.doubles)
    ensures analyzer.once <==> old(analyzer.once) && analyzer.doubles == old(analyzer.doubles)
    ensures analyzer.once ==> Good(analyzer.committed, analyzer.first)
    ensures old(analyzer.once) && (forall i :: 0 <= i < |lives| ==> Kind(lives[i].0, analyzer.heightOf)) ==>
              analyzer.once
  {
    hide Good, Kind, ChainAnalyzer.Started;
    ghost var kind := old(analyzer.once) && forall i :: 0 <= i < |lives| ==> Kind(lives[i].0, analyzer.heightOf);
    for i := 0 to |lives|
      invariant analyzer.Safe() && analyzer.doubles >= old(analyzer.doubles)
      invariant analyzer.once <==> old(analyzer.once) && analyzer.doubles == old(analyzer.doubles)
      invariant kind ==> analyzer.once
    {
      Live(analyzer, lives[i].0, lives[i].1);
    }
  }

  /** A start whose discards succeed ends ready. */
  lemma {:induction false} KindStarts(analyzer: ChainAnalyzer, before: Copy, backfill: Option<nat>)
    requires analyzer.Rest() && analyzer.once && !analyzer.lastPassFailed && !analyzer.atTip
    requires Kind(analyzer.life, analyzer.heightOf)
    requires analyzer.Started(analyzer.life, before, backfill) == Some(analyzer.Here())
    ensures AtEase(analyzer)
  {
    var s, h := analyzer.life, analyzer.height;
    var st := analyzer.PickedUp(s, 0, before, 0).value;
    ReachesDiscarded(before, st.height, 0, s[2]);
    if analyzer.Here() != st {
      ReachesDiscarded(st.copy, h, 0, s[st.at]);
    }
    ReadyOrReached(analyzer.working, analyzer.first, h);
  }

  /** One process. */
  method Live(analyzer: ChainAnalyzer, life: seq<Answer>, backfill: Option<nat>)
    requires analyzer.Safe()
    modifies analyzer
    ensures analyzer.Safe() && analyzer.doubles >= old(analyzer.doubles)
    ensures analyzer.once <==> old(analyzer.once) && analyzer.doubles == old(analyzer.doubles)
    ensures old(analyzer.once) && Kind(life, analyzer.heightOf) ==> analyzer.once
  {
    hide Good, Kind, Reaches, Within, ChainAnalyzer.Started, ChainAnalyzer.Doubles, ChainAnalyzer.Prepared;
    ghost var kind := old(analyzer.once) && Kind(life, analyzer.heightOf);
    var out := analyzer.Start(life, backfill);
    if kind && out == Done {
      KindStarts(analyzer, old(analyzer.committed), backfill);
    }
    while out == Done
      invariant analyzer.Safe() && analyzer.doubles >= old(analyzer.doubles) && analyzer.life == life
      invariant analyzer.once <==> old(analyzer.once) && analyzer.doubles == old(analyzer.doubles)
      invariant out == Done ==> analyzer.Rest()
      invariant kind ==> analyzer.once && (out == Done ==> AtEase(analyzer))
      decreases out == Done, |analyzer.life| - analyzer.at
    {
      if kind {
        KindNeverDoubles(analyzer);
      }
      out := analyzer.MainFunction();
    }
  }

  /** Between two passes of a kind life. */
  ghost predicate AtEase(analyzer: ChainAnalyzer)
    reads analyzer
  {
    analyzer.lastPassFailed || (analyzer.Settled() && (analyzer.atTip ==> analyzer.Moved()))
  }
}
