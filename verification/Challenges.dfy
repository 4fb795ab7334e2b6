/** The pool's storage challenges (pool/PoolDatabase.cpp, challenge methods): a node is
    asked for the hash of a byte range, may answer once inside the deadline, and is
    scored by the verdict or, when it has been scored before, by its silence. Each
    database method is one atomic step under the mutex. */
module Challenges {
  import opened Results
  import opened Words

  const DEADLINE := 120
  const MAX_BYTES := 65536
  const EMA := 0.2

  datatype Score = Score(proofScore: real, proofAnswered: nat)

  datatype Challenge = Challenge(peerId: string, cid: string, offset: int, length: int, issuedAt: int)

  datatype Row = Row(asked: Challenge, answeredAt: Option<int>, passed: Option<bool>)

  datatype Tables = Tables(nodes: map<string, Score>, rows: map<string, Row>)

  datatype ByteRange = ByteRange(offset: int, length: int)

  function Within(seed: nat, n: nat): (r: nat)
    requires n > 0
    ensures r < n && (seed < n ==> r == seed)
  {
    seed % n
  }

  // pool/StoragePlan.h:195-202
  /** Always a non-empty range inside a measured file, and the whole of a small one. */
  function ChallengeRange(sizeBytes: int, seed: nat): (r: ByteRange)
    ensures sizeBytes > 0 ==> 0 <= r.offset && 0 < r.length <= 65536 && r.offset + r.length <= sizeBytes
    ensures 0 < sizeBytes <= 65536 ==> r == ByteRange(0, sizeBytes)
    ensures sizeBytes > 65536 ==> r.length == 65536
    ensures sizeBytes <= 0 ==> r == ByteRange(0, 0)
  {
    if sizeBytes <= 0 then ByteRange(0, 0)
    else
      var length := if sizeBytes < MAX_BYTES then sizeBytes else MAX_BYTES;
      var span := sizeBytes - length;
      ByteRange(if span > 0 then Within(seed, span + 1) else 0, length)
  }

  /** A file longer than one range has `places` offsets where a range can start. Each is
      asked for, by every seed that lies a whole number of rounds through them behind it. */
  lemma {:induction false} EveryRangeAsked(places: nat, offset: nat, rounds: nat)
    requires offset < places
    ensures ChallengeRange(65535 + places, offset + rounds * places) == ByteRange(offset, 65536)
  {
    DivModUnique(rounds, offset, places);
  }

  // pool/StoragePlan.h:205-207
  function NextProofScore(current: real, passed: bool): (s: real)
    ensures 0.0 <= current <= 1.0 ==> 0.0 <= s <= 1.0
    ensures 0.0 <= current <= 1.0 ==> if passed then s >= current else s <= current
    ensures 5.0 * ((if passed then 1.0 else 0.0) - s) == 4.0 * ((if passed then 1.0 else 0.0) - current)
  {
    EMA * (if passed then 1.0 else 0.0) + (1.0 - EMA) * current
  }

  /** The score a run of verdicts, first one first, leaves. */
  function ScoreAfter(start: real, verdicts: seq<bool>): real {
    if verdicts == [] then start
    else NextProofScore(ScoreAfter(start, verdicts[..|verdicts| - 1]), verdicts[|verdicts| - 1])
  }

  function Fifths(n: nat): real {
    if n == 0 then 1.0 else 0.8 * Fifths(n - 1)
  }

  /** Each verdict closes a fifth of the distance to itself, so n alike leave 0.8^n of it. */
  lemma {:induction false} InARow(start: real, passed: bool, n: nat)
    ensures var target := if passed then 1.0 else 0.0;
            target - ScoreAfter(start, seq(n, _ => passed)) == Fifths(n) * (target - start)
  {
    if n > 0 {
      InARow(start, passed, n - 1);
      assert seq(n, _ => passed)[..n - 1] == seq(n - 1, _ => passed);
    }
  }

  function Judged(n: Score, passed: bool): Score {
    Score(NextProofScore(n.proofScore, passed), n.proofAnswered + 1)
  }

  // What one row says at a given time.

  predicate Claimable(r: Row, peerId: string, now: int) {
    r.asked.peerId == peerId && r.answeredAt.None? && r.asked.issuedAt >= now - DEADLINE
  }

  predicate Lapsed(r: Row, now: int) {
    r.answeredAt.None? && r.asked.issuedAt < now - DEADLINE
  }

  predicate HasLapsed(t: Tables, peerId: string, now: int) {
    exists id :: id in t.rows && t.rows[id].asked.peerId == peerId && Lapsed(t.rows[id], now)
  }

  /** Scored on proofs before: only such a node is judged by its silence. */
  predicate Known(t: Tables, peerId: string) {
    peerId in t.nodes && t.nodes[peerId].proofAnswered > 0
  }

  // The steps, each as what it makes of the tables.

  function Registered(t: Tables, peerId: string): Tables {
    if peerId in t.nodes then t else t.(nodes := t.nodes[peerId := Score(0.0, 0)])
  }

  function Issued(t: Tables, id: string, c: Challenge): Tables {
    if id in t.rows then t else t.(rows := t.rows[id := Row(c, None, None)])
  }

  predicate CanClaim(t: Tables, id: string, peerId: string, now: int) {
    id in t.rows && Claimable(t.rows[id], peerId, now)
  }

  function Claimed(t: Tables, id: string, peerId: string, now: int): Tables {
    if CanClaim(t, id, peerId, now) then t.(rows := t.rows[id := t.rows[id].(answeredAt := Some(now))]) else t
  }

  predicate CanRecord(t: Tables, id: string, peerId: string) {
    id in t.rows && t.rows[id].asked.peerId == peerId && t.rows[id].passed.None?
  }

  function Recorded(t: Tables, id: string, peerId: string, passed: bool): Tables {
    if !CanRecord(t, id, peerId) then t
    else
      Tables(if peerId in t.nodes then t.nodes[peerId := Judged(t.nodes[peerId], passed)] else t.nodes,
             t.rows[id := t.rows[id].(passed := Some(passed))])
  }

  /** The sweep: every lapsed row closes, as a failure if its node has been scored
      before, and each such node is marked down once however many rows it let lapse. */
  function Swept(t: Tables, now: int): Tables {
    Tables(map p | p in t.nodes ::
             if Known(t, p) && HasLapsed(t, p, now) then Judged(t.nodes[p], false) else t.nodes[p],
           map id | id in t.rows ::
             var r := t.rows[id];
             if !Lapsed(r, now) then r
             else Row(r.asked, Some(now), if Known(t, r.asked.peerId) then Some(false) else None))
  }

  lemma {:induction false} NodesSwept(t: Tables, now: int, late: set<string>, nodes: map<string, Score>)
    requires late == set id | id in t.rows && Lapsed(t.rows[id], now) :: t.rows[id].asked.peerId
    requires nodes == map p | p in t.nodes ::
               var n := t.nodes[p];
               if n.proofAnswered > 0 && p in late then Score((1.0 - EMA) * n.proofScore, n.proofAnswered + 1) else n
    ensures nodes == Swept(t, now).nodes
  {
    hide Lapsed;
    forall p | p in t.nodes
      ensures nodes[p] == Swept(t, now).nodes[p]
    {
      assert p in late <==> HasLapsed(t, p, now);
    }
  }

  lemma {:induction false} RowsSwept(t: Tables, now: int, nodes: map<string, Score>, scored: set<string>,
                                     rows: map<string, Row>)
    requires nodes == Swept(t, now).nodes && scored == set p | p in nodes && nodes[p].proofAnswered > 0
    requires rows == map id | id in t.rows ::
               var r := t.rows[id];
               if id in (set j | j in t.rows && Lapsed(t.rows[j], now))
               then Row(r.asked, Some(now), if r.asked.peerId in scored then Some(false) else None) else r
    ensures rows == Swept(t, now).rows
  {
    hide Lapsed, HasLapsed;
    forall id | id in t.rows
      ensures rows[id] == Swept(t, now).rows[id]
    {
      assert t.rows[id].asked.peerId in scored <==> Known(t, t.rows[id].asked.peerId);
    }
  }

  class ChallengeTable {
    var nodes: map<string, Score>
    var rows: map<string, Row>

    ghost function State(): Tables
      reads this
    {
      Tables(nodes, rows)
    }

    constructor ()
      ensures State() == Tables(map[], map[])
    {
      nodes := map[];
      rows := map[];
    }

    method UpsertNode(peerId: string)
      modifies this
      ensures State() == Registered(old(State()), peerId)
    {
      if peerId !in nodes {
        nodes := nodes[peerId := Score(0.0, 0)];
      }
    }

    // pool/PoolDatabase.cpp:537-551
    /** Some newest open row of the peer inside its deadline, if there is one. */
    method GetOpenChallenge(peerId: string, now: int) returns (out: Option<(string, Challenge)>)
      ensures out.Some? <==> exists id :: CanClaim(State(), id, peerId, now)
      ensures out.Some? ==>
                && CanClaim(State(), out.value.0, peerId, now) && rows[out.value.0].asked == out.value.1
                && forall id :: CanClaim(State(), id, peerId, now) ==> rows[id].asked.issuedAt <= out.value.1.issuedAt
    {
      out := None;
      var ids := rows.Keys;
      while ids != {}
        invariant ids <= rows.Keys
        invariant out.None? ==> forall id :: id in rows && id !in ids ==> !Claimable(rows[id], peerId, now)
        invariant out.Some? ==>
                    && CanClaim(State(), out.value.0, peerId, now) && rows[out.value.0].asked == out.value.1
                    && forall id :: id in rows && id !in ids && Claimable(rows[id], peerId, now) ==>
                                      rows[id].asked.issuedAt <= out.value.1.issuedAt
        decreases |ids|
      {
        var id :| id in ids;
        ids := ids - {id};
        var r := rows[id];
        if Claimable(r, peerId, now) && (out.None? || r.asked.issuedAt > out.value.1.issuedAt) {
          out := Some((id, r.asked));
        }
      }
    }

    // pool/PoolDatabase.cpp:553-568
    method InsertChallenge(id: string, c: Challenge)
      modifies this
      ensures State() == Issued(old(State()), id, c)
    {
      if id !in rows {
        rows := rows[id := Row(c, None, None)];
      }
    }

    // pool/PoolDatabase.cpp:569-597
    /** Reads the row, then updates it where it is still open. */
    method ClaimChallenge(id: string, peerId: string, now: int) returns (claimed: bool, out: Option<Challenge>)
      modifies this
      ensures State() == Claimed(old(State()), id, peerId, now)
      ensures claimed <==> CanClaim(old(State()), id, peerId, now)
      ensures claimed ==> out == Some(old(rows)[id].asked)
    {
      out := None;
      if id in rows && rows[id].asked.peerId == peerId && rows[id].answeredAt.None?
         && rows[id].asked.issuedAt >= now - DEADLINE
      {
        out := Some(rows[id].asked);
      }
      if out.None? {
        return false, out;
      }
      claimed := false;
      if id in rows && rows[id].answeredAt.None? {
        rows := rows[id := rows[id].(answeredAt := Some(now))];
        claimed := true;
      }
    }

    // pool/PoolDatabase.cpp:599-622
    method RecordProofResult(id: string, peerId: string, passed: bool)
      modifies this
      ensures State() == Recorded(old(State()), id, peerId, passed)
    {
      var recorded := false;
      if id in rows && rows[id].asked.peerId == peerId && rows[id].passed.None? {
        rows := rows[id := rows[id].(passed := Some(passed))];
        recorded := true;
      }
      if !recorded {
        return;
      }
      if peerId in nodes {
        var n := nodes[peerId];
        var proofScore := EMA * (if passed then 1.0 else 0.0) + (1.0 - EMA) * n.proofScore;
        nodes := nodes[peerId := Score(proofScore, n.proofAnswered + 1)];
      }
    }

    // pool/PoolDatabase.cpp:624-654
    /** Two statements: the nodes first, then the rows, whose verdicts look at the nodes
        as the first statement left them. */
    method ExpireChallenges(now: int) returns (closed: nat)
      modifies this
      ensures State() == Swept(old(State()), now)
      ensures closed == |set id | id in old(rows) && Lapsed(old(rows)[id], now)|
    {
      var late := set id | id in rows && Lapsed(rows[id], now) :: rows[id].asked.peerId;
      nodes := map p | p in nodes ::
        var n := nodes[p];
        if n.proofAnswered > 0 && p in late then Score((1.0 - EMA) * n.proofScore, n.proofAnswered + 1) else n;
      var scored := set p | p in nodes && nodes[p].proofAnswered > 0;
      var closing := set id | id in rows && Lapsed(rows[id], now);
      closed := |closing|;
      NodesSwept(old(State()), now, late, nodes);
      rows := map id | id in rows ::
        var r := rows[id];
        if id in closing then Row(r.asked, Some(now), if r.asked.peerId in scored then Some(false) else None) else r;
      RowsSwept(old(State()), now, nodes, scored, rows);
    }
  }

  // Runs: any interleaving of the server's threads.

  /** The tables and the answers being judged: a handler that claimed a challenge holds it
      until it has read the file and recorded its verdict, or given up. */
  datatype Server = Server(t: Tables, judging: set<(string, string)>)

  datatype Step =
    | Register(peerId: string)
    | Issue(id: string, c: Challenge)
    | Claim(id: string, peer: string, at: int)
    | Verdict(id: string, peer: string, verdict: Option<bool>)
    | Sweep(at: int)
    | Restart

  function Next(s: Server, step: Step): Server {
    match step
    case Register(p) => s.(t := Registered(s.t, p))
    case Issue(id, c) => s.(t := Issued(s.t, id, c))
    case Claim(id, p, now) =>
      if CanClaim(s.t, id, p, now) then Server(Claimed(s.t, id, p, now), s.judging + {(id, p)}) else s
    case Verdict(id, p, v) =>
      if (id, p) !in s.judging then s
      else Server(if v.Some? then Recorded(s.t, id, p, v.value) else s.t, s.judging - {(id, p)})
    case Sweep(now) => s.(t := Swept(s.t, now))
    case Restart => s.(judging := {})
  }

  function Run(s: Server, steps: seq<Step>): Server {
    if steps == [] then s else Next(Run(s, steps[..|steps| - 1]), steps[|steps| - 1])
  }

  ghost function WithVerdict(t: Tables, peerId: string): set<string> {
    set id | id in t.rows && t.rows[id].asked.peerId == peerId && t.rows[id].passed.Some?
  }

  ghost function LapsedOf(t: Tables, peerId: string, now: int): set<string> {
    set id | id in t.rows && t.rows[id].asked.peerId == peerId && Lapsed(t.rows[id], now)
  }

  ghost predicate ScoresInRange(t: Tables) {
    forall p :: p in t.nodes ==> 0.0 <= t.nodes[p].proofScore <= 1.0
  }

  ghost predicate Accounted(t: Tables) {
    forall p :: p in t.nodes ==> t.nodes[p].proofAnswered <= |WithVerdict(t, p)|
  }

  ghost predicate VerdictsClosed(t: Tables) {
    forall id :: id in t.rows && t.rows[id].passed.Some? ==> t.rows[id].answeredAt.Some?
  }

  ghost predicate HeldOpen(s: Server) {
    forall h :: h in s.judging ==>
                  h.0 in s.t.rows && s.t.rows[h.0].asked.peerId == h.1
                  && s.t.rows[h.0].answeredAt.Some? && s.t.rows[h.0].passed.None?
  }

  /** Every verdict stands on a closed challenge, every answer being judged has none yet,
      no node has been scored more often than it has verdicts, and scores stay in 0..1. */
  ghost predicate Sound(s: Server) {
    ScoresInRange(s.t) && Accounted(s.t) && VerdictsClosed(s.t) && HeldOpen(s)
  }

  /** Nothing asked is forgotten or asked differently; what is closed stays closed at the
      same time, and a verdict given is never changed. */
  ghost predicate Kept(before: Tables, after: Tables) {
    forall id :: id in before.rows ==>
                   && id in after.rows
                   && after.rows[id].asked == before.rows[id].asked
                   && (before.rows[id].answeredAt.Some? ==> after.rows[id].answeredAt == before.rows[id].answeredAt)
                   && (before.rows[id].passed.Some? ==> after.rows[id].passed == before.rows[id].passed)
  }

  lemma {:induction false} NextKept(s: Server, step: Step)
    requires Sound(s)
    ensures Kept(s.t, Next(s, step).t)
  {
    hide ScoresInRange, Accounted;
  }

  lemma KeptThrough(a: Tables, b: Tables, c: Tables)
    requires Kept(a, b) && Kept(b, c)
    ensures Kept(a, c)
  {
  }

  // How one step moves the count of verdicts of a node.

  lemma {:induction false} RecordAddsOne(t: Tables, id: string, peerId: string, passed: bool)
    requires CanRecord(t, id, peerId)
    ensures var t' := Recorded(t, id, peerId, passed);
            && WithVerdict(t', peerId) == WithVerdict(t, peerId) + {id} && id !in WithVerdict(t, peerId)
            && forall p :: p != peerId ==> WithVerdict(t', p) == WithVerdict(t, p)
  {
    var t' := Recorded(t, id, peerId, passed);
    forall p | p != peerId
      ensures WithVerdict(t', p) == WithVerdict(t, p)
    {
    }
  }

  lemma SweepAddsLapsed(t: Tables, now: int, peerId: string)
    requires VerdictsClosed(t)
    ensures WithVerdict(Swept(t, now), peerId)
         == WithVerdict(t, peerId) + if Known(t, peerId) then LapsedOf(t, peerId, now) else {}
    ensures WithVerdict(t, peerId) !! LapsedOf(t, peerId, now)
  {
  }

  /** What a sweep does to one node: a node scored before gets a failing verdict for each
      challenge it let lapse but is marked down once; any other node gets neither. */
  lemma {:induction false} SweepAccount(t: Tables, now: int, peerId: string)
    requires VerdictsClosed(t) && peerId in t.nodes
    ensures var t' := Swept(t, now);
            var lapsed := |LapsedOf(t, peerId, now)|;
            if t.nodes[peerId].proofAnswered > 0 && lapsed > 0 then
              && t'.nodes[peerId] == Judged(t.nodes[peerId], false)
              && |WithVerdict(t', peerId)| == |WithVerdict(t, peerId)| + lapsed
            else
              t'.nodes[peerId] == t.nodes[peerId] && |WithVerdict(t', peerId)| == |WithVerdict(t, peerId)|
  {
    SweepAddsLapsed(t, now, peerId);
    var late := LapsedOf(t, peerId, now);
    if HasLapsed(t, peerId, now) {
      var id :| id in t.rows && t.rows[id].asked.peerId == peerId && Lapsed(t.rows[id], now);
      assert id in late;
    } else {
      assert late == {};
    }
    hide Judged;
  }

  lemma {:induction false} SweepAccounted(t: Tables, now: int)
    requires VerdictsClosed(t) && Accounted(t)
    ensures Accounted(Swept(t, now))
  {
    var t' := Swept(t, now);
    forall p | p in t'.nodes
      ensures t'.nodes[p].proofAnswered <= |WithVerdict(t', p)|
    {
      SweepAccount(t, now, p);
    }
  }

  lemma {:induction false} RecordAccounted(t: Tables, id: string, peerId: string, passed: bool)
    requires CanRecord(t, id, peerId) && Accounted(t)
    ensures Accounted(Recorded(t, id, peerId, passed))
  {
    RecordAddsOne(t, id, peerId, passed);
    hide WithVerdict;
  }

  /** Steps that give no verdict change no count. */
  lemma {:induction false} SameVerdicts(t: Tables, t': Tables)
    requires forall id :: id in t.rows ==>
               id in t'.rows && t'.rows[id].asked == t.rows[id].asked && t'.rows[id].passed == t.rows[id].passed
    requires forall id :: id in t'.rows && id !in t.rows ==> t'.rows[id].passed.None?
    requires forall p :: p in t'.nodes ==>
               t'.nodes[p].proofAnswered == (if p in t.nodes then t.nodes[p].proofAnswered else 0)
    requires Accounted(t)
    ensures Accounted(t')
  {
    forall p | p in t'.nodes
      ensures t'.nodes[p].proofAnswered <= |WithVerdict(t', p)|
    {
      assert WithVerdict(t', p) == WithVerdict(t, p);
    }
  }

  lemma {:induction false} NextAccounted(s: Server, step: Step)
    requires Sound(s)
    ensures Accounted(Next(s, step).t)
  {
    hide Accounted, ScoresInRange, WithVerdict, Judged;
    match step
    case Register(p) => SameVerdicts(s.t, Registered(s.t, p));
    case Issue(id, c) => SameVerdicts(s.t, Issued(s.t, id, c));
    case Claim(id, p, now) => SameVerdicts(s.t, Claimed(s.t, id, p, now));
    case Verdict(id, p, v) =>
      if (id, p) in s.judging && v.Some? {
        RecordAccounted(s.t, id, p, v.value);
      }
    case Sweep(now) => SweepAccounted(s.t, now);
    case Restart =>
  }

  lemma {:induction false} NextScores(s: Server, step: Step)
    requires Sound(s)
    ensures ScoresInRange(Next(s, step).t)
  {
    hide Accounted, VerdictsClosed, HeldOpen, NextProofScore;
  }

  lemma {:induction false} NextHeld(s: Server, step: Step)
    requires Sound(s)
    ensures VerdictsClosed(Next(s, step).t) && HeldOpen(Next(s, step))
  {
    hide Accounted, ScoresInRange, Judged;
  }

  lemma {:induction false} NextSound(s: Server, step: Step)
    requires Sound(s)
    ensures Sound(Next(s, step))
  {
    NextAccounted(s, step);
    NextScores(s, step);
    NextHeld(s, step);
    hide Accounted, ScoresInRange, VerdictsClosed, HeldOpen, Next;
  }

  /** Over every interleaving: the bookkeeping stays sound, and every challenge closes
      once and carries at most one verdict. */
  lemma {:induction false} RunSound(s: Server, steps: seq<Step>)
    requires Sound(s)
    ensures Sound(Run(s, steps)) && Kept(s.t, Run(s, steps).t)
  {
    hide Sound, Kept, Next;
    if steps == [] {
      KeptSelf(s.t);
    } else {
      var before := Run(s, steps[..|steps| - 1]);
      RunSound(s, steps[..|steps| - 1]);
      NextSound(before, steps[|steps| - 1]);
      NextKept(before, steps[|steps| - 1]);
      KeptThrough(s.t, before.t, Run(s, steps).t);
    }
  }

  lemma KeptSelf(t: Tables)
    ensures Kept(t, t)
  {
  }

  lemma StartSound()
    ensures Sound(Server(Tables(map[], map[]), {}))
  {
  }

  ghost predicate Answers(step: Step, peerId: string) {
    step.Verdict? && step.peer == peerId && step.verdict.Some?
  }

  /** A node whose answers were never judged keeps the score it had, whatever it ignores. */
  lemma {:induction false} NeverAnswered(s: Server, steps: seq<Step>, peerId: string)
    requires Sound(s) && peerId in s.t.nodes && s.t.nodes[peerId].proofAnswered == 0
    requires forall i :: 0 <= i < |steps| ==> !Answers(steps[i], peerId)
    ensures peerId in Run(s, steps).t.nodes && Run(s, steps).t.nodes[peerId] == s.t.nodes[peerId]
  {
    hide Sound;
    if steps != [] {
      NeverAnswered(s, steps[..|steps| - 1], peerId);
    }
  }

  /** Each judged answer counts: the held row gets exactly this verdict and the node
      exactly one more score. */
  lemma {:induction false} VerdictLands(s: Server, id: string, peerId: string, passed: bool)
    requires Sound(s) && (id, peerId) in s.judging && peerId in s.t.nodes
    ensures var s' := Next(s, Verdict(id, peerId, Some(passed)));
            && s'.t.rows[id].passed == Some(passed)
            && s'.t.nodes[peerId].proofAnswered == s.t.nodes[peerId].proofAnswered + 1
            && s'.t.nodes[peerId].proofScore == NextProofScore(s.t.nodes[peerId].proofScore, passed)
            && (id, peerId) !in s'.judging
  {
    hide Accounted, ScoresInRange, VerdictsClosed, NextProofScore;
  }

  /** A challenge from its issue to the end of the judging: asked once, answered in time, and
      judged, or given up without a verdict; nothing else changes. */
  lemma {:induction false} Answered(s: Server, id: string, c: Challenge, at: int, verdict: Option<bool>)
    requires Sound(s) && id !in s.t.rows && c.peerId in s.t.nodes && at <= c.issuedAt + 120
    ensures var s' := Next(Next(Next(s, Issue(id, c)), Claim(id, c.peerId, at)), Verdict(id, c.peerId, verdict));
            && s'.t.rows == s.t.rows[id := Row(c, Some(at), verdict)] && s'.judging == s.judging
            && s'.t.nodes == match verdict
                             case None => s.t.nodes
                             case Some(passed) =>
                               var n := s.t.nodes[c.peerId];
                               s.t.nodes[c.peerId := Score(NextProofScore(n.proofScore, passed), n.proofAnswered + 1)]
  {
    hide Accounted, ScoresInRange, VerdictsClosed, NextProofScore;
    assert (id, c.peerId) !in s.judging;
    var claimed := Next(Next(s, Issue(id, c)), Claim(id, c.peerId, at));
    assert claimed == Server(s.t.(rows := s.t.rows[id := Row(c, Some(at), None)]), s.judging + {(id, c.peerId)});
  }

  /** A node not known before starts at nothing: its first verdict makes its score 0.2 or 0. */
  lemma {:induction false} FirstProof(t: Tables, peerId: string, passed: bool)
    requires peerId !in t.nodes
    ensures var t' := Registered(t, peerId);
            && t'.rows == t.rows && t'.nodes.Keys == t.nodes.Keys + {peerId}
            && (forall p :: p in t.nodes ==> t'.nodes[p] == t.nodes[p])
            && Judged(t'.nodes[peerId], passed) == Score(if passed then 0.2 else 0.0, 1)
  {
  }

  /** At any moment an unanswered challenge can either be claimed by its node or be swept,
      never both: the two comparisons meet exactly at the deadline, 120 seconds on. */
  lemma ClaimableOrLapsed(r: Row, now: int, peerId: string)
    requires r.answeredAt.None?
    ensures Claimable(r, peerId, now) <==> peerId == r.asked.peerId && now <= r.asked.issuedAt + 120
    ensures Lapsed(r, now) <==> now > r.asked.issuedAt + 120
  {
  }

  /** After a claim nobody else can claim, and no sweep touches the row. */
  lemma ClaimedIsClosed(t: Tables, id: string, peerId: string, now: int, other: string, later: int)
    requires CanClaim(t, id, peerId, now)
    ensures var t' := Claimed(t, id, peerId, now);
            !CanClaim(t', id, other, later) && Swept(t', later).rows[id] == t'.rows[id]
  {
  }

  /** A node's score count equals its verdicts after a sweep exactly when the sweep did
      not close several of its challenges at once. */
  lemma {:induction false} SweepExact(t: Tables, now: int, peerId: string)
    requires VerdictsClosed(t) && peerId in t.nodes && t.nodes[peerId].proofAnswered == |WithVerdict(t, peerId)|
    ensures var t' := Swept(t, now);
            t'.nodes[peerId].proofAnswered == |WithVerdict(t', peerId)|
            <==> !(Known(t, peerId) && |LapsedOf(t, peerId, now)| > 1)
  {
    SweepAccount(t, now, peerId);
    hide WithVerdict, LapsedOf, Swept;
  }

  function TwoIgnored(): Tables {
    Tables(map["n" := Score(1.0, 1)],
           map["a" := Row(Challenge("n", "f", 0, 1, 0), None, None),
               "b" := Row(Challenge("n", "f", 0, 1, 1), None, None),
               "c" := Row(Challenge("n", "f", 0, 1, 0), Some(1), Some(true))])
  }

  /** Two challenges let lapse in one sweep: two failing verdicts, one mark against the node. */
  lemma {:induction false} OneMarkForTwo()
    ensures Sound(Server(TwoIgnored(), {}))
    ensures Swept(TwoIgnored(), 200).nodes["n"] == Score(0.8, 2) && |WithVerdict(Swept(TwoIgnored(), 200), "n")| == 3
  {
    var t := TwoIgnored();
    assert WithVerdict(t, "n") == {"c"};
    assert LapsedOf(t, "n", 200) == {"a", "b"};
    SweepAccount(t, 200, "n");
    hide Swept, LapsedOf, WithVerdict;
  }
}
