/** The pool's payout protocol (pool/PoolDashboard.cpp): plan, confirm or automatic,
    guard row, one atomic send whose outcome may be unknown, ledger rows, and a process
    that may die between any two of them. The ledger survives; everything else is lost. */
module Payouts {
  import opened Results
  import opened PayoutPlan
  import L = Ledger

  /** What sendMany reports: nothing sent, unknown, or a transaction id. */
  datatype Reply = Timeout | Error | Txid(txid: string)

  /** What happens during one execution: when the guard row is written and whether the
      write succeeds, whether Core broadcasts the batch, what it is heard to reply (None:
      the process dies waiting), whether releasing the guard succeeds where it is tried, and
      each ledger write the process lives to make. */
  datatype Life = Life(guardAt: int, guardWritten: bool, sent: bool, reply: Option<Reply>, released: bool,
                       writes: seq<(int, bool)>)

  datatype Config = Config(enabled: bool, walletNamed: bool, rpcUser: bool, autoPayout: bool, periodHours: int,
                           percent: real, perPeriod: real)

  /** What planning sees: the clock, the verified nodes, the wallet, the peers, Core. */
  datatype World = World(now: int, targets: seq<Target>, balance: real, paidByPeers: set<string>,
                         coreSaysValid: string -> bool)

  /** One execution. period is the configured period, in seconds, when it was planned; it
      holds the period when any row of it, the guard's or a payment's, is in the ledger. tick
      is the time of the tick that made an automatic one, and process counts the restarts. */
  datatype Attempt = Attempt(at: int, period: int, plan: nat, holds: bool, sent: bool, tick: Option<int>, process: nat)

  datatype View = View(rows: seq<L.Row>, nextId: nat, attempts: seq<Attempt>,
                       planned: bool, planNo: nat, planAt: int, planPeriod: int, nextAttempt: int, process: nat)

  predicate Blocked(rows: seq<L.Row>, now: int, hours: int) {
    hours > 0 && L.LastAt(rows) > 0 && now - L.LastAt(rows) < hours * 3600
  }

  /** Some row in the ledger is from that time or later. */
  ghost predicate Guarded(rows: seq<L.Row>, at: int) {
    exists k :: 0 <= k < |rows| && rows[k].owedAt >= at
  }

  ghost predicate Apart(a: Attempt, b: Attempt) {
    a.holds && b.period > 0 ==> b.at - a.at >= b.period
  }

  /** Whatever left a row keeps every later attempt a period away. */
  ghost predicate Spaced(attempts: seq<Attempt>) {
    forall i, j :: 0 <= i < j < |attempts| ==> Apart(attempts[i], attempts[j])
  }

  /** No plan is executed twice. */
  ghost predicate PlansOnce(attempts: seq<Attempt>) {
    forall i, j :: 0 <= i < j < |attempts| ==> attempts[i].plan < attempts[j].plan
  }

  /** Of two automatic attempts of one process the later ticked at least an hour after the
      earlier. */
  ghost predicate Hourly(attempts: seq<Attempt>) {
    forall i, j :: 0 <= i < j < |attempts| ==> HourBetween(attempts[i], attempts[j])
  }

  ghost predicate HourBetween(a: Attempt, b: Attempt) {
    a.tick.Some? && b.tick.Some? && a.process == b.process ==> b.tick.value - a.tick.value >= 3600
  }

  ghost predicate Placed(v: View, a: Attempt, clock: int) {
    && 0 < a.at <= clock && a.process <= v.process
    && (a.tick.Some? && a.process == v.process ==> v.nextAttempt >= a.tick.value + 3600)
    && a.plan <= v.planNo && (v.planned ==> a.plan < v.planNo)
    && (a.holds ==> Guarded(v.rows, a.at))
    && (v.planned && a.holds && v.planPeriod > 0 ==> v.planAt - a.at >= v.planPeriod)
  }

  ghost predicate AllPlaced(v: View, clock: int) {
    forall i :: 0 <= i < |v.attempts| ==> Placed(v, v.attempts[i], clock)
  }

  ghost predicate Inv(v: View, clock: int) {
    && L.Numbered(v.rows, v.nextId) && Spaced(v.attempts) && PlansOnce(v.attempts) && Hourly(v.attempts)
    && AllPlaced(v, clock) && (v.planned ==> v.planAt <= clock)
  }

  lemma {:induction false} GuardedLast(rows: seq<L.Row>, at: int)
    requires Guarded(rows, at)
    ensures rows != [] && L.LastAt(rows) >= at
  {
    hide L.LastAt;
    L.LastAtMax(rows);
  }

  /** A plan let through by the guard is a period away from everything that holds one. */
  lemma {:induction false} PlanMade(v: View, clock: int, now: int, hours: int)
    requires Inv(v, clock) && now >= clock && !Blocked(v.rows, now, hours)
    ensures Inv(v.(planned := true, planNo := v.planNo + 1, planAt := now, planPeriod := hours * 3600), now)
  {
    hide L.LastAt, Guarded;
    var v' := v.(planned := true, planNo := v.planNo + 1, planAt := now, planPeriod := hours * 3600);
    forall i | 0 <= i < |v'.attempts|
      ensures Placed(v', v'.attempts[i], now)
    {
      var a := v.attempts[i];
      assert Placed(v, a, clock);
      if a.holds {
        GuardedLast(v.rows, a.at);
      }
    }
  }

  lemma {:induction false} PlanDropped(v: View, clock: int, later: int)
    requires Inv(v, clock) && later >= clock
    ensures Inv(v.(planned := false), later)
  {
    hide L.Numbered, Guarded;
    var v' := v.(planned := false);
    forall i | 0 <= i < |v'.attempts|
      ensures Placed(v', v'.attempts[i], later)
    {
      assert Placed(v, v.attempts[i], clock);
    }
  }

  /** The next automatic attempt is put off. */
  lemma {:induction false} PutOff(v: View, clock: int, next: int)
    requires Inv(v, clock) && next >= v.nextAttempt
    ensures Inv(v.(nextAttempt := next), clock)
  {
    hide L.Numbered, Guarded;
    var v' := v.(nextAttempt := next);
    forall i | 0 <= i < |v'.attempts|
      ensures Placed(v', v'.attempts[i], clock)
    {
      assert Placed(v, v.attempts[i], clock);
    }
  }

  /** A new process: no plan, and no hour to wait for. */
  lemma {:induction false} Restarted(v: View, clock: int, later: int)
    requires Inv(v, clock) && later >= clock
    ensures Inv(v.(planned := false, nextAttempt := 0, process := v.process + 1), later)
  {
    hide L.Numbered, Guarded;
    var v' := v.(planned := false, nextAttempt := 0, process := v.process + 1);
    forall i | 0 <= i < |v'.attempts|
      ensures Placed(v', v'.attempts[i], later)
    {
      assert Placed(v, v.attempts[i], clock);
    }
  }

  lemma {:induction false} Later(v: View, clock: int, later: int)
    requires Inv(v, clock) && later >= clock
    ensures Inv(v, later)
  {
    hide L.Numbered, Guarded;
    forall i | 0 <= i < |v.attempts|
      ensures Placed(v, v.attempts[i], later)
    {
      assert Placed(v, v.attempts[i], clock);
    }
  }

  lemma {:induction false} GuardedStays(rows: seq<L.Row>, more: seq<L.Row>, at: int)
    ensures Guarded(rows, at) || Guarded(more, at) ==> Guarded(rows + more, at)
  {
    if k :| 0 <= k < |rows| && rows[k].owedAt >= at {
      assert (rows + more)[k] == rows[k];
    }
    if k :| 0 <= k < |more| && more[k].owedAt >= at {
      assert (rows + more)[|rows| + k] == more[k];
    }
  }

  /** An execution is over: the plan is used up and its rows, whatever was written, are in. */
  lemma {:induction false} AttemptMade(v: View, clock: int, a: Attempt, more: seq<L.Row>, nextId: nat)
    requires Inv(v, clock) && v.planned && 0 < clock <= a.at
    requires a.period == v.planPeriod && a.plan == v.planNo && (a.holds ==> Guarded(more, a.at))
    requires a.process == v.process && Rested(v, a)
    requires L.Numbered(v.rows + more, nextId)
    ensures Inv(v.(rows := v.rows + more, nextId := nextId, attempts := v.attempts + [a], planned := false), a.at)
  {
    var v' := v.(rows := v.rows + more, nextId := nextId, attempts := v.attempts + [a], planned := false);
    hide Guarded, L.Numbered;
    forall i | 0 <= i < |v'.attempts|
      ensures Placed(v', v'.attempts[i], a.at)
    {
      GuardedStays(v.rows, more, v'.attempts[i].at);
      if i < |v.attempts| {
        assert v'.attempts[i] == v.attempts[i];
        assert Placed(v, v.attempts[i], clock);
      }
    }
    AttemptApart(v, clock, a);
  }

  /** An automatic attempt comes with the hour to the next one just begun, and not before the
      hour of the one before is over. */
  ghost predicate Rested(v: View, a: Attempt) {
    a.tick.Some? ==>
      v.nextAttempt == a.tick.value + 3600
      && forall i :: 0 <= i < |v.attempts| ==> HourBetween(v.attempts[i], a)
  }

  /** The hour of every automatic attempt of the process is over. */
  ghost predicate HoursOver(attempts: seq<Attempt>, process: nat, now: int) {
    forall i :: 0 <= i < |attempts| && attempts[i].tick.Some? && attempts[i].process == process ==>
                  now - attempts[i].tick.value >= 3600
  }

  lemma {:induction false} HoursPassed(v: View, clock: int, now: int)
    requires Inv(v, clock) && now >= v.nextAttempt
    ensures HoursOver(v.attempts, v.process, now)
  {
    hide Guarded, L.Numbered;
    forall i | 0 <= i < |v.attempts| && v.attempts[i].tick.Some? && v.attempts[i].process == v.process
      ensures now - v.attempts[i].tick.value >= 3600
    {
      assert Placed(v, v.attempts[i], clock);
    }
  }

  lemma {:induction false} AttemptApart(v: View, clock: int, a: Attempt)
    requires Inv(v, clock) && v.planned && clock <= a.at && a.period == v.planPeriod && a.plan == v.planNo
    requires Rested(v, a)
    ensures Spaced(v.attempts + [a]) && PlansOnce(v.attempts + [a]) && Hourly(v.attempts + [a])
  {
    hide Guarded, L.Numbered;
    forall i | 0 <= i < |v.attempts|
      ensures Apart(v.attempts[i], a) && v.attempts[i].plan < a.plan && HourBetween(v.attempts[i], a)
    {
      assert Placed(v, v.attempts[i], clock);
    }
  }

  // What one execution leaves in the ledger.

  ghost predicate Sendable(pending: seq<Payment>) {
    pending != [] && AllValid(pending)
  }

  /** Core is only asked when every address is one it could pay. */
  ghost function Heard(pending: seq<Payment>, life: Life): Option<Reply> {
    if Sendable(pending) then life.reply else Some(Error)
  }

  /** The guard row stays: it was written and no definite failure released it. */
  ghost predicate Guards(pending: seq<Payment>, life: Life) {
    life.guardWritten && !(Heard(pending, life) == Some(Error) && life.released)
  }

  /** The rows of the first n payments whose writes succeeded. */
  function RowsOf(n: nat, pending: seq<Payment>, writes: seq<(int, bool)>, txid: Option<string>, id: nat): seq<L.Row>
    requires n <= |pending| && n <= |writes|
  {
    if n == 0 then []
    else
      var rows := RowsOf(n - 1, pending, writes, txid, id);
      rows + if writes[n - 1].1
             then [L.Row(id + |rows|, pending[n - 1].0, PayoutSats(pending[n - 1].1), writes[n - 1].0, txid)]
             else []
  }

  function Lived(pending: seq<Payment>, writes: seq<(int, bool)>): (n: nat)
    ensures n <= |pending| && n <= |writes|
  {
    if |pending| <= |writes| then |pending| else |writes|
  }

  function RowsHeard(pending: seq<Payment>, life: Life, heard: Option<Reply>, id: nat): seq<L.Row> {
    match heard
    case Some(Timeout) => RowsOf(Lived(pending, life.writes), pending, life.writes, None, id)
    case Some(Txid(t)) => RowsOf(Lived(pending, life.writes), pending, life.writes, Some(t), id)
    case _ => []
  }

  /** The guard row unless its write failed or a definite failure released it. */
  ghost function GuardRows(pending: seq<Payment>, life: Life, id: nat): seq<L.Row> {
    if Guards(pending, life) then [L.Row(id, L.PERIOD_GUARD, 0, life.guardAt, None)] else []
  }

  ghost function AfterAttempt(rows: seq<L.Row>, nextId: nat, pending: seq<Payment>, life: Life): seq<L.Row> {
    rows + GuardRows(pending, life, nextId)
    + RowsHeard(pending, life, Heard(pending, life), if life.guardWritten then nextId + 1 else nextId)
  }

  lemma {:induction false} AfterIs(rows: seq<L.Row>, nextId: nat, pending: seq<Payment>, life: Life)
    ensures var heard := if Sendable(pending) then life.reply else Some(Error);
            var guard := if life.guardWritten then [L.Row(nextId, L.PERIOD_GUARD, 0, life.guardAt, None)] else [];
            && heard == Heard(pending, life)
            && (Guards(pending, life) <==> life.guardWritten && !(heard == Some(Error) && life.released))
            && AfterAttempt(rows, nextId, pending, life)
               == if heard == Some(Error) then rows + if life.released then [] else guard
                  else rows + guard + RowsHeard(pending, life, heard, if life.guardWritten then nextId + 1 else nextId)
  {
    hide RowsOf, Sendable;
  }

  lemma SurvivesIs(pending: seq<Payment>, life: Life)
    ensures Survives(pending, life) <==>
            var heard := if Sendable(pending) then life.reply else Some(Error);
            heard.Some? && (heard != Some(Error) ==> |life.writes| >= |pending|)
  {
    hide Sendable;
  }

  lemma SendableIs(pending: seq<Payment>)
    ensures Sendable(pending) <==> pending != [] && AllValid(pending)
  {
  }

  lemma {:induction false} RowsNumbered(n: nat, pending: seq<Payment>, writes: seq<(int, bool)>, txid: Option<string>,
                                        id: nat)
    requires n <= |pending| && n <= |writes|
    ensures var rows := RowsOf(n, pending, writes, txid, id);
            L.Numbered(rows, id + |rows|)
  {
    if n > 0 {
      RowsNumbered(n - 1, pending, writes, txid, id);
    }
  }

  predicate Quits(ch: char) {
    ch == 'q' || ch == 'Q' || ch == 3 as char
  }

  predicate Confirms(ch: char) {
    ch == 'y' || ch == 'Y'
  }

  predicate Plans(ch: char) {
    ch == 'e' || ch == 'E'
  }

  /** Exactly one more execution, of these payments, as this life tells it. */
  ghost predicate Attempted(before: seq<Attempt>, after: seq<Attempt>, paid: seq<Payment>, period: int, life: Life,
                            tick: Option<int>, process: nat)
  {
    && |after| == |before| + 1 && after[..|before|] == before
    && after[|before|].at == life.guardAt && after[|before|].period == period
    && after[|before|].holds == !LeavesNothing(paid, life)
    && after[|before|].sent == (Sendable(paid) && life.sent)
    && after[|before|].tick == tick && after[|before|].process == process
  }

  /** The process lives to the end of the execution. */
  ghost predicate Survives(paid: seq<Payment>, life: Life) {
    Heard(paid, life).Some? && (Heard(paid, life) != Some(Error) ==> |life.writes| >= |paid|)
  }

  /** A tick gets past every check but those of the plan, and past the hour. */
  ghost predicate Tries(now: int, nextCheck: int, nextAttempt: int, awaiting: bool, rows: seq<L.Row>, cfg: Config) {
    && nextCheck <= now && nextAttempt <= now && !awaiting && cfg.enabled && cfg.autoPayout
    && (cfg.periodHours > 0 && L.LastAt(rows) > 0 ==> now - L.LastAt(rows) >= cfg.periodHours * 3600)
  }

  /** When the automatic payout is made. */
  ghost predicate AutoDue(now: int, nextCheck: int, nextAttempt: int, awaiting: bool, rows: seq<L.Row>, cfg: Config,
                          world: World)
  {
    && nextCheck <= now && nextAttempt <= now && !awaiting && cfg.autoPayout && cfg.periodHours > 0
    && (L.LastAt(rows) <= 0 || now - L.LastAt(rows) >= cfg.periodHours * 3600) && Due(rows, cfg, world)
  }

  /** When a payout can be planned: everything configured, the period over, money to
      spend, somebody with weight, and an address that can be paid. */
  ghost predicate Due(rows: seq<L.Row>, cfg: Config, world: World) {
    && Payer(cfg, world) && !Blocked(rows, world.now, cfg.periodHours)
    && exists a :: CanPay(a, cfg, world)
  }

  ghost predicate Payer(cfg: Config, world: World) {
    && cfg.enabled && cfg.walletNamed && cfg.rpcUser && world.targets != []
    && Spend(cfg, world) > 0.0 && TotalWeight(world.targets) > 0.0
  }

  ghost function Spend(cfg: Config, world: World): real {
    ComputeBudget(world.balance, cfg.percent, cfg.perPeriod, |world.targets|)
  }

  ghost predicate CanPay(a: string, cfg: Config, world: World) {
    TotalWeight(world.targets) > 0.0
    && Payable((a, ShareOf(world.targets, a, Spend(cfg, world), TotalWeight(world.targets))), world.paidByPeers,
               world.coreSaysValid)
  }

  /** The pending payments are what the budget of this moment gives each address. */
  ghost predicate Planned(pending: seq<Payment>, cfg: Config, world: World) {
    var total := TotalWeight(world.targets);
    && Payer(cfg, world)
    && PlanOf(pending, world.targets, Spend(cfg, world), total, world.paidByPeers, world.coreSaysValid)
    && SumOf(pending) <= AllShares(world.targets, Spend(cfg, world), total)
  }

  lemma {:induction false} DueIs(rows: seq<L.Row>, cfg: Config, world: World)
    ensures var spend := ComputeBudget(world.balance, cfg.percent, cfg.perPeriod, |world.targets|);
            Due(rows, cfg, world) ==>
              && cfg.enabled && cfg.walletNamed && cfg.rpcUser && world.targets != [] && spend > 0.0
              && TotalWeight(world.targets) > 0.0 && !Blocked(rows, world.now, cfg.periodHours)
  {
    hide Blocked, CanPay, ComputeBudget, TotalWeight;
  }

  lemma {:induction false} PlannedIs(pending: seq<Payment>, rows: seq<L.Row>, cfg: Config, world: World)
    requires cfg.enabled && cfg.walletNamed && cfg.rpcUser && world.targets != []
    requires ComputeBudget(world.balance, cfg.percent, cfg.perPeriod, |world.targets|) > 0.0
    requires TotalWeight(world.targets) > 0.0 && !Blocked(rows, world.now, cfg.periodHours)
    requires var spend := ComputeBudget(world.balance, cfg.percent, cfg.perPeriod, |world.targets|);
             && PlanOf(pending, world.targets, spend, TotalWeight(world.targets), world.paidByPeers,
                       world.coreSaysValid)
             && SumOf(pending) <= AllShares(world.targets, spend, TotalWeight(world.targets))
    ensures pending != [] <==> Due(rows, cfg, world)
    ensures Planned(pending, cfg, world)
  {
    hide Blocked, ComputeBudget, TotalWeight, ShareOf, AllShares, SumOf, DistinctAddresses, Payable;
    if pending != [] {
      assert pending[0] in pending;
      assert pending[0] == (pending[0].0, pending[0].1);
      assert CanPay(pending[0].0, cfg, world);
    }
    if a :| CanPay(a, cfg, world) {
      assert pending != [];
    }
  }

  class PoolDashboard {
    const db: L.LedgerTable
    var pending: seq<Payment>
    var awaiting: bool
    var nextAutoCheck: int
    var nextAutoAttempt: int
    var quit: bool
    ghost var attempts: seq<Attempt>
    ghost var planNo: nat
    ghost var planAt: int
    ghost var planPeriod: int
    ghost var process: nat

    ghost function State(): View
      reads this, db
    {
      View(db.rows, db.nextId, attempts, pending != [], planNo, planAt, planPeriod, nextAutoAttempt, process)
    }

    constructor (db: L.LedgerTable)
      requires L.Numbered(db.rows, db.nextId)
      ensures this.db == db && pending == [] && !awaiting && attempts == [] && planNo == 0
    {
      this.db := db;
      pending, awaiting, nextAutoCheck, nextAutoAttempt, quit := [], false, 0, 0, false;
      attempts, planNo, planAt, planPeriod, process := [], 0, 0, 0, 0;
    }

    /** The process dies and starts again: only the ledger is left. */
    method Restart()
      modifies this`pending, this`awaiting, this`nextAutoCheck, this`nextAutoAttempt, this`process
      ensures pending == [] && !awaiting && nextAutoCheck == 0 && nextAutoAttempt == 0 && process == old(process) + 1
    {
      pending, awaiting, nextAutoCheck, nextAutoAttempt, process := [], false, 0, 0, process + 1;
    }

    /** One ledger row per payment; true when the process lived to the last. */
    method RecordRows(writes: seq<(int, bool)>, txid: Option<string>) returns (alive: bool)
      modifies db
      ensures alive <==> |writes| >= |pending|
      ensures var rows := RowsOf(Lived(pending, writes), pending, writes, txid, old(db.nextId));
              db.rows == old(db.rows) + rows && db.nextId == old(db.nextId) + |rows|
    {
      hide PayoutSats;
      var i := 0;
      while i < |pending| && i < |writes|
        invariant i <= |pending| && i <= |writes|
        invariant db.rows == old(db.rows) + RowsOf(i, pending, writes, txid, old(db.nextId))
        invariant db.nextId == old(db.nextId) + |RowsOf(i, pending, writes, txid, old(db.nextId))|
      {
        db.Insert(pending[i].0, PayoutSats(pending[i].1), writes[i].0, txid, writes[i].1);
        i := i + 1;
      }
      alive := i == |pending|;
    }

    /** Rows for an unknown or a known outcome, release of the guard for a definite failure. */
    method Settle(ghost before: seq<L.Row>, guardId: int, life: Life, result: Option<Reply>) returns (alive: bool)
      requires L.Numbered(before, db.nextId) && L.Numbered(db.rows, db.nextId)
      requires if guardId < 0 then db.rows == before
               else && |db.rows| > 0 && db.rows == before + [db.rows[|db.rows| - 1]]
                    && db.rows[|db.rows| - 1].id == guardId
                    && L.Numbered(before, guardId)
      modifies db
      ensures db.rows == if result == Some(Error) then if life.released then before else old(db.rows)
                         else old(db.rows) + RowsHeard(pending, life, result, old(db.nextId))
      ensures db.nextId >= old(db.nextId) && L.Numbered(db.rows, db.nextId)
      ensures alive <==> result.Some? && (result != Some(Error) ==> |life.writes| >= |pending|)
    {
      hide RowsOf, Lived, PayoutSats, L.Without;
      alive := true;
      match result {
        case None =>
          alive := false;
        case Some(Timeout) =>
          RowsNumbered(Lived(pending, life.writes), pending, life.writes, None, db.nextId);
          alive := RecordRows(life.writes, None);
        case Some(Error) =>
          if guardId >= 0 {
            L.WithoutLast(before, db.rows[|db.rows| - 1]);
          }
          db.AbortPayoutPeriod(guardId, life.released);
        case Some(Txid(txid)) =>
          RowsNumbered(Lived(pending, life.writes), pending, life.writes, Some(txid), db.nextId);
          alive := RecordRows(life.writes, Some(txid));
      }
    }

    // pool/PoolDashboard.cpp:973-1050
    /** Guard, send, then rows or release. What it leaves behind depends only on what
        happened, wherever the process died. */
    method ExecutePayout(life: Life, ghost tick: Option<int>) returns (alive: bool)
      requires L.Numbered(db.rows, db.nextId) && pending != []
      modifies this`pending, this`attempts, db
      ensures db.rows == AfterAttempt(old(db.rows), old(db.nextId), old(pending), life)
      ensures db.nextId >= old(db.nextId) + (if life.guardWritten then 1 else 0) && L.Numbered(db.rows, db.nextId)
      ensures attempts == old(attempts) + [Attempt(life.guardAt, planPeriod, planNo, !LeavesNothing(old(pending), life),
                                                   Sendable(old(pending)) && life.sent, tick, process)]
      ensures pending == []
      ensures alive <==> Survives(old(pending), life)
    {
      hide *;
      var guardId := db.BeginPayoutPeriod(life.guardAt, life.guardWritten);
      var body := SendManyAmounts(pending);
      ghost var sent := body.Ok? && life.sent;
      var result := if body.Ok? then life.reply else Some(Error);
      SendableIs(pending);
      L.NumberedWith(old(db.rows), db.rows[|old(db.rows)|..], old(db.nextId));
      assert db.rows == old(db.rows) + db.rows[|old(db.rows)|..];
      alive := Settle(old(db.rows), guardId, life, result);
      AfterIs(old(db.rows), old(db.nextId), pending, life);
      SurvivesIs(pending, life);
      attempts := attempts + [Attempt(life.guardAt, planPeriod, planNo, !LeavesNothing(pending, life), sent, tick,
                                       process)];
      pending := [];
    }

    /** Keeps the invariant through one execution, wherever it ends. */
    ghost method KeepInv(v: View, clock: int, paid: seq<Payment>, life: Life, tick: Option<int>)
      requires Inv(v, clock) && v.planned && 0 < clock <= life.guardAt && Timely(life)
      requires db.rows == AfterAttempt(v.rows, v.nextId, paid, life)
      requires L.Numbered(db.rows, db.nextId)
      requires pending == [] && planNo == v.planNo && planPeriod == v.planPeriod && planAt == v.planAt
      requires nextAutoAttempt == v.nextAttempt && process == v.process
      requires attempts == v.attempts + [Attempt(life.guardAt, v.planPeriod, v.planNo, !LeavesNothing(paid, life),
                                                 Sendable(paid) && life.sent, tick, v.process)]
      requires Rested(v, attempts[|v.attempts|])
      ensures Inv(State(), life.guardAt)
    {
      hide RowsOf, Sendable, Inv, L.Numbered, LeavesNothing, AfterAttempt, Guarded;
      var more := LeftBy(v.nextId, paid, life);
      AddsRows(v.rows, v.nextId, paid, life);
      LeftGuards(v.nextId, paid, life);
      AttemptMade(v, clock, attempts[|v.attempts|], more, db.nextId);
    }

    method SumWeights(targets: seq<Target>) returns (total: real)
      ensures total == TotalWeight(targets)
    {
      total := 0.0;
      for i := 0 to |targets|
        invariant total == TotalWeight(targets[..i])
      {
        assert targets[..i + 1][..i] == targets[..i];
        total := total + targets[i].weight;
      }
      assert targets[..|targets|] == targets;
    }

    // pool/PoolDashboard.cpp:801-956
    /** Works out a payout only when every guard allows one; then the plan is what is
        due to each address, and it is a new plan made now under today's period. */
    method PlanPayout(cfg: Config, world: World) returns (planned: bool)
      modifies this`pending, this`planNo, this`planAt, this`planPeriod
      ensures planned <==> Due(db.rows, cfg, world)
      ensures planned <==> pending != []
      ensures planned ==>
                && !Blocked(db.rows, world.now, cfg.periodHours)
                && planNo == old(planNo) + 1 && planAt == world.now && planPeriod == cfg.periodHours * 3600
      ensures !planned ==> planNo == old(planNo) && planAt == old(planAt) && planPeriod == old(planPeriod)
      ensures planned ==> |pending| <= |world.targets| && Planned(pending, cfg, world)
    {
      hide *;
      planned := false;
      pending := [];
      DueIs(db.rows, cfg, world);
      var lastPayout := db.GetLastPayoutAt();
      if !cfg.enabled || !cfg.walletNamed || world.targets == [] || !cfg.rpcUser {
        return;
      }
      BlockedIs(db.rows, world.now, cfg.periodHours);
      if cfg.periodHours > 0 && lastPayout > 0 && world.now - lastPayout < cfg.periodHours * 3600 {
        return;
      }
      var spend := ComputeBudget(world.balance, cfg.percent, cfg.perPeriod, |world.targets|);
      if spend <= 0.0 {
        return;
      }
      var total := SumWeights(world.targets);
      if total <= 0.0 {
        return;
      }
      pending := BuildPlan(world.targets, spend, total, world.paidByPeers, world.coreSaysValid);
      PlannedIs(pending, db.rows, cfg, world);
      if pending != [] {
        planned := true;
        planNo, planAt, planPeriod := planNo + 1, world.now, cfg.periodHours * 3600;
      }
    }

    // pool/PoolDashboard.cpp:427-442, 482-489
    /** A key at the console: E plans and asks, Y confirms what was just asked, any other
        key withdraws it. The plan is not checked again at Y. */
    method KeyPress(ch: char, cfg: Config, world: World, life: Life, ghost clock: int)
      requires Inv(State(), clock) && awaiting == (pending != []) && 0 < clock <= world.now <= life.guardAt
      requires Timely(life)
      modifies this, db
      ensures Inv(State(), life.guardAt) && awaiting == (pending != [])
      ensures if ch in "yY" && old(awaiting) then
                && Attempted(old(attempts), attempts, old(pending), old(planPeriod), life, None, old(process))
                && !awaiting && db.rows == AfterAttempt(old(db.rows), old(db.nextId), old(pending), life)
              else attempts == old(attempts) && db.rows == old(db.rows)
      ensures ch in "eE" && !old(awaiting) ==>
                (awaiting <==> Due(old(db.rows), cfg, world)) && (awaiting ==> Planned(pending, cfg, world))
      ensures ch !in "qQyY" && ch as int != 3 && old(awaiting) ==> !awaiting
      ensures ch in "qQ" || ch as int == 3 || (ch !in "eE" && !old(awaiting)) ==>
                pending == old(pending) && awaiting == old(awaiting)
      ensures quit == (old(quit) || ch in "qQ" || ch as int == 3)
      ensures if ch in "yY" && old(awaiting) && !Survives(old(pending), life) then Fresh(old(process))
              else Undisturbed(old(nextAutoCheck), old(nextAutoAttempt), old(process))
    {
      hide Inv, Blocked, AfterAttempt, Guards, LeavesNothing, Sendable, Heard, PlanOf, ComputeBudget, AllShares, Due;
      hide Planned, Survives, L.LastAt;
      ghost var v := State();
      if Quits(ch) {
        quit := true;
        Later(v, clock, life.guardAt);
      } else if awaiting {
        awaiting := false;
        if Confirms(ch) {
          Execute(life, None, clock);
        } else {
          pending := [];
          PlanDropped(v, clock, life.guardAt);
        }
      } else if Plans(ch) {
        awaiting := Plan(cfg, world, clock);
        Later(State(), world.now, life.guardAt);
      } else {
        Later(v, clock, life.guardAt);
      }
    }

    /** A process that has just started after another that died. */
    ghost predicate Fresh(was: nat)
      reads this
    {
      nextAutoCheck == 0 && nextAutoAttempt == 0 && process == was + 1
    }

    ghost predicate Undisturbed(check: int, attempt: int, was: nat)
      reads this
    {
      nextAutoCheck == check && nextAutoAttempt == attempt && process == was
    }

    /** Planning, with the invariant it keeps. */
    method Plan(cfg: Config, world: World, ghost clock: int) returns (planned: bool)
      requires Inv(State(), clock) && clock <= world.now
      modifies this`pending, this`planNo, this`planAt, this`planPeriod
      ensures Inv(State(), world.now) && planned == (pending != [])
      ensures planned <==> Due(db.rows, cfg, world)
      ensures planned ==> planPeriod == cfg.periodHours * 3600 && Planned(pending, cfg, world)
    {
      hide Inv, Blocked, AfterAttempt, Guards, LeavesNothing, Sendable, Heard, PlanOf, ComputeBudget, AllShares, Due;
      hide Planned, Survives, L.LastAt;
      ghost var v := State();
      planned := PlanPayout(cfg, world);
      if planned {
        PlanMade(v, clock, world.now, cfg.periodHours);
      } else {
        PlanDropped(v, clock, world.now);
      }
    }

    /** Execution, with the invariant it keeps; a process that died starts again. */
    method Execute(life: Life, ghost tick: Option<int>, ghost clock: int)
      requires Inv(State(), clock) && pending != [] && 0 < clock <= life.guardAt && Timely(life)
      requires tick.Some? ==> nextAutoAttempt == tick.value + 3600 && HoursOver(attempts, process, tick.value)
      modifies this, db
      ensures Inv(State(), life.guardAt) && pending == [] && (old(awaiting) == false ==> !awaiting) && quit == old(quit)
      ensures Attempted(old(attempts), attempts, old(pending), old(planPeriod), life, tick, old(process))
      ensures db.rows == AfterAttempt(old(db.rows), old(db.nextId), old(pending), life)
      ensures if Survives(old(pending), life) then Undisturbed(old(nextAutoCheck), old(nextAutoAttempt), old(process))
              else Fresh(old(process))
    {
      hide Inv, Blocked, AfterAttempt, Guards, LeavesNothing, Sendable, Heard, PlanOf, ComputeBudget, AllShares, Due;
      hide Planned, Survives, L.LastAt;
      ghost var v := State();
      ghost var paid := pending;
      InvNumbered(v, clock);
      var alive := ExecutePayout(life, tick);
      KeepInv(v, clock, paid, life, tick);
      if !alive {
        Restarted(State(), life.guardAt, life.guardAt);
        Restart();
      }
    }

    // pool/PoolDashboard.cpp:1066-1110
    /** The automatic payout: never while the operator is being asked, never without a
        period, at most one try an hour. */
    method MaybeAutoPayout(now: int, cfg: Config, world: World, life: Life, ghost clock: int)
      returns (ghost paid: seq<Payment>)
      requires Inv(State(), clock) && awaiting == (pending != []) && 0 < clock <= now <= world.now <= life.guardAt
      requires Timely(life)
      modifies this, db
      ensures Inv(State(), life.guardAt) && awaiting == (pending != []) && quit == old(quit)
      ensures if AutoDue(now, old(nextAutoCheck), old(nextAutoAttempt), old(awaiting), old(db.rows), cfg, world) then
                && paid != [] && Planned(paid, cfg, world) && cfg.periodHours > 0
                && Attempted(old(attempts), attempts, paid, cfg.periodHours * 3600, life, Some(now), old(process))
                && db.rows == AfterAttempt(old(db.rows), old(db.nextId), paid, life)
                && if Survives(paid, life) then Undisturbed(now + 60, now + 3600, old(process)) else Fresh(old(process))
              else
                && attempts == old(attempts) && db.rows == old(db.rows)
                && awaiting == old(awaiting) && pending == old(pending)
                && Undisturbed(if now >= old(nextAutoCheck) then now + 60 else old(nextAutoCheck),
                               if Tries(now, old(nextAutoCheck), old(nextAutoAttempt), old(awaiting), old(db.rows), cfg)
                               then now + 3600 else old(nextAutoAttempt),
                               old(process))
    {
      hide Inv, Blocked, AfterAttempt, Guards, LeavesNothing, Sendable, Heard, PlanOf, ComputeBudget, AllShares, Due;
      hide Planned, Survives, L.LastAt;
      paid := [];
      DueIs(db.rows, cfg, world);
      Later(State(), clock, life.guardAt);
      Later(State(), clock, now);
      if now < nextAutoCheck {
        return;
      }
      nextAutoCheck := now + 60;
      if awaiting || !cfg.enabled {
        return;
      }
      var lastPayout := db.GetLastPayoutAt();
      var due := lastPayout <= 0 || (cfg.periodHours > 0 && now - lastPayout >= cfg.periodHours * 3600);
      if !cfg.autoPayout {
        return;
      }
      if cfg.periodHours <= 0 {
        if now >= nextAutoAttempt {
          PutOff(State(), life.guardAt, now + 3600);
          nextAutoAttempt := now + 3600;
        }
        return;
      }
      if !due || now < nextAutoAttempt {
        return;
      }
      HoursPassed(State(), now, now);
      PutOff(State(), now, now + 3600);
      nextAutoAttempt := now + 3600;
      var planned := Plan(cfg, world, now);
      if !planned {
        Later(State(), world.now, life.guardAt);
        return;
      }
      paid := pending;
      Execute(life, Some(now), world.now);
    }
  }

  // Whole runs.

  datatype Action = Key(ch: char) | Tick | Crash

  /** One turn of the console loop; its clock readings come in this order. */
  datatype Event = Event(action: Action, now: int, cfg: Config, world: World, life: Life)

  ghost predicate InTime(events: seq<Event>, clock: int) {
    && (forall k :: 0 <= k < |events| ==>
                      clock <= events[k].now <= events[k].world.now <= events[k].life.guardAt && Timely(events[k].life))
    && (forall j, k :: 0 <= j < k < |events| ==> events[j].life.guardAt <= events[k].now)
  }

  /** Any run of keys, ticks and crashes on a clock that never goes back: an attempt that left
      any row has kept every later attempt its period away, no plan was executed twice, and the
      automatic attempts of one process were at least an hour apart. */
  method Run(dash: PoolDashboard, events: seq<Event>, ghost start: int)
    requires Inv(dash.State(), start) && dash.awaiting == (dash.pending != []) && 0 < start && InTime(events, start)
    modifies dash, dash.db
    ensures Spaced(dash.attempts) && PlansOnce(dash.attempts) && Hourly(dash.attempts)
    ensures old(dash.attempts) <= dash.attempts
  {
    hide Spaced, PlansOnce, Hourly, AllPlaced, L.Numbered;
    ghost var clock := start;
    for i := 0 to |events|
      invariant Inv(dash.State(), clock) && dash.awaiting == (dash.pending != []) && 0 < clock
      invariant clock == if i == 0 then start else events[i - 1].life.guardAt
      invariant old(dash.attempts) <= dash.attempts
    {
      var e := events[i];
      Turn(dash, e, clock);
      clock := e.life.guardAt;
    }
  }

  method Turn(dash: PoolDashboard, e: Event, ghost clock: int)
    requires Inv(dash.State(), clock) && dash.awaiting == (dash.pending != [])
    requires 0 < clock <= e.now <= e.world.now <= e.life.guardAt && Timely(e.life)
    modifies dash, dash.db
    ensures Inv(dash.State(), e.life.guardAt) && dash.awaiting == (dash.pending != [])
    ensures old(dash.attempts) <= dash.attempts
  {
    hide Inv, Blocked, AfterAttempt, Guards, LeavesNothing, Sendable, Heard, PlanOf, ComputeBudget, AllShares, Due;
    hide Planned, L.LastAt;
    match e.action {
      case Key(ch) =>
        dash.KeyPress(ch, e.cfg, e.world, e.life, clock);
      case Tick =>
        ghost var paid := dash.MaybeAutoPayout(e.now, e.cfg, e.world, e.life, clock);
      case Crash =>
        Restarted(dash.State(), clock, e.life.guardAt);
        dash.Restart();
    }
  }

  /** Nothing was broadcast that left no row. */
  ghost predicate Truthful(attempts: seq<Attempt>) {
    forall i :: 0 <= i < |attempts| ==> attempts[i].sent ==> attempts[i].holds
  }

  /** Of two executions that broadcast, the later came at least its period after the earlier. */
  ghost predicate SentApart(attempts: seq<Attempt>) {
    forall i, j :: 0 <= i < j < |attempts| && attempts[i].sent && attempts[j].sent && attempts[j].period > 0 ==>
                     attempts[j].at - attempts[i].at >= attempts[j].period
  }

  lemma {:induction false} TruthfulIsApart(attempts: seq<Attempt>)
    requires Spaced(attempts) && Truthful(attempts)
    ensures SentApart(attempts)
  {
    forall i, j | 0 <= i < j < |attempts| && attempts[i].sent && attempts[j].sent && attempts[j].period > 0
      ensures attempts[j].at - attempts[i].at >= attempts[j].period
    {
      assert Apart(attempts[i], attempts[j]);
    }
  }

  lemma InvNumbered(v: View, clock: int)
    requires Inv(v, clock)
    ensures L.Numbered(v.rows, v.nextId)
  {
  }

  lemma BlockedIs(rows: seq<L.Row>, now: int, hours: int)
    ensures Blocked(rows, now, hours) <==> hours > 0 && L.LastAt(rows) > 0 && now - L.LastAt(rows) < hours * 3600
  {
  }

  /** A period is closed to a payout exactly by a row of the ledger, whatever it records, that
      is less than the period old. */
  lemma {:induction false} BlockedByRow(rows: seq<L.Row>, now: int, hours: int)
    ensures Blocked(rows, now, hours) <==>
            hours > 0 && exists k :: 0 <= k < |rows| && rows[k].owedAt > 0 && now < rows[k].owedAt + 3600 * hours
  {
    hide L.LastAt;
    L.LastAtMax(rows);
    if k :| 0 <= k < |rows| && rows[k].owedAt == L.LastAt(rows) {
      assert rows[k].owedAt == L.LastAt(rows);
    }
  }

  // Exactly when an execution leaves the period open.

  lemma {:induction false} RowsNone(n: nat, pending: seq<Payment>, writes: seq<(int, bool)>, txid: Option<string>,
                                    id: nat)
    requires n <= |pending| && n <= |writes|
    ensures RowsOf(n, pending, writes, txid, id) == [] <==> forall k :: 0 <= k < n ==> !writes[k].1
  {
    hide PayoutSats;
    if n > 0 {
      RowsNone(n - 1, pending, writes, txid, id);
    }
  }

  /** The clock does not go back during an execution. */
  ghost predicate Timely(life: Life) {
    forall k :: 0 <= k < |life.writes| ==> life.writes[k].0 >= life.guardAt
  }

  /** The rows an execution leaves. */
  ghost function LeftBy(nextId: nat, pending: seq<Payment>, life: Life): seq<L.Row> {
    GuardRows(pending, life, nextId)
    + RowsHeard(pending, life, Heard(pending, life), if life.guardWritten then nextId + 1 else nextId)
  }

  lemma AddsRows(rows: seq<L.Row>, nextId: nat, pending: seq<Payment>, life: Life)
    ensures AfterAttempt(rows, nextId, pending, life) == rows + LeftBy(nextId, pending, life)
  {
    hide RowsHeard, GuardRows, Heard;
  }

  /** Every row an execution leaves guards its period. */
  lemma {:induction false} LeftGuards(nextId: nat, pending: seq<Payment>, life: Life)
    requires Timely(life)
    ensures !LeavesNothing(pending, life) <==> LeftBy(nextId, pending, life) != []
    ensures !LeavesNothing(pending, life) ==> Guarded(LeftBy(nextId, pending, life), life.guardAt)
  {
    hide RowsOf, Sendable, Lived, LeavesNothing;
    var more := LeftBy(nextId, pending, life);
    LeavesNothingIs([], nextId, pending, life);
    AddsRows([], nextId, pending, life);
    assert [] + more == more;
    if more != [] {
      var id := if life.guardWritten then nextId + 1 else nextId;
      HeardTimed(pending, life, Heard(pending, life), id);
      assert |GuardRows(pending, life, nextId)| == 0 ==> more == RowsHeard(pending, life, Heard(pending, life), id);
      assert more[0].owedAt >= life.guardAt;
    }
  }

  /** No ledger write of this execution survives. */
  ghost predicate LeavesNothing(pending: seq<Payment>, life: Life) {
    && !Guards(pending, life)
    && (Heard(pending, life).Some? && Heard(pending, life) != Some(Error) ==>
          forall k :: 0 <= k < Lived(pending, life.writes) ==> !life.writes[k].1)
  }

  lemma {:induction false} LeavesNothingIs(rows: seq<L.Row>, nextId: nat, pending: seq<Payment>, life: Life)
    ensures LeavesNothing(pending, life) <==> AfterAttempt(rows, nextId, pending, life) == rows
  {
    hide RowsOf, Sendable;
    var n := Lived(pending, life.writes);
    var id := if life.guardWritten then nextId + 1 else nextId;
    RowsNone(n, pending, life.writes, None, id);
    match Heard(pending, life) {
      case Some(Txid(t)) => RowsNone(n, pending, life.writes, Some(t), id);
      case _ =>
    }
    var more := GuardRows(pending, life, nextId) + RowsHeard(pending, life, Heard(pending, life), id);
    assert AfterAttempt(rows, nextId, pending, life) == rows + more;
    assert |AfterAttempt(rows, nextId, pending, life)| == |rows| + |more|;
    assert more == [] ==> rows + more == rows;
  }

  ghost predicate AllSince(rows: seq<L.Row>, at: int) {
    forall k :: 0 <= k < |rows| ==> rows[k].owedAt >= at
  }

  lemma {:induction false} RowsTimed(n: nat, pending: seq<Payment>, writes: seq<(int, bool)>, txid: Option<string>,
                                     id: nat, at: int)
    requires n <= |pending| && n <= |writes| && forall k :: 0 <= k < |writes| ==> writes[k].0 >= at
    ensures AllSince(RowsOf(n, pending, writes, txid, id), at)
  {
    hide PayoutSats;
    if n > 0 {
      RowsTimed(n - 1, pending, writes, txid, id, at);
      assert writes[n - 1].0 >= at;
    }
  }

  lemma {:induction false} HeardTimed(pending: seq<Payment>, life: Life, heard: Option<Reply>, id: nat)
    requires Timely(life)
    ensures AllSince(RowsHeard(pending, life, heard, id), life.guardAt)
  {
    var n := Lived(pending, life.writes);
    RowsTimed(n, pending, life.writes, None, id, life.guardAt);
    if heard.Some? && heard.value.Txid? {
      RowsTimed(n, pending, life.writes, Some(heard.value.txid), id, life.guardAt);
    }
    hide RowsOf;
  }

  /** Inside the period after an execution, and with nothing older in the way, the next
      plan is refused exactly when the execution left any row at all. */
  lemma {:induction false} BlocksExactly(rows: seq<L.Row>, nextId: nat, pending: seq<Payment>, life: Life, t: int,
                                         hours: int)
    requires hours > 0 && 0 < life.guardAt <= t < life.guardAt + hours * 3600 && !Blocked(rows, t, hours)
    requires Timely(life)
    ensures Blocked(AfterAttempt(rows, nextId, pending, life), t, hours) <==> !LeavesNothing(pending, life)
  {
    hide Sendable, L.LastAt, AfterAttempt, LeavesNothing, LeftBy, Guarded;
    var after, more := AfterAttempt(rows, nextId, pending, life), LeftBy(nextId, pending, life);
    AddsRows(rows, nextId, pending, life);
    LeftGuards(nextId, pending, life);
    if more != [] {
      GuardedStays(rows, more, life.guardAt);
      GuardedLast(after, life.guardAt);
    } else {
      assert after == rows;
    }
  }

  /** A broadcast that leaves no row pays again within the same second: this happens
      whenever the batch went out but the reply read as a failure and the guard was released,
      and when neither the guard nor any payment's row was written. */
  method PaidAgain(dash: PoolDashboard, cfg: Config, world: World, life: Life, again: Life)
    requires L.Numbered(dash.db.rows, dash.db.nextId) && Due(dash.db.rows, cfg, world) && cfg.periodHours > 0
    requires life.sent && again.sent && life.guardAt == again.guardAt == world.now
    requires || (life.reply == Some(Error) && life.released)
             || (!life.guardWritten && (life.reply in {Some(Error), None}
                                        || forall k :: 0 <= k < |life.writes| ==> !life.writes[k].1))
    modifies dash, dash.db
    ensures !SentApart(dash.attempts)
  {
    hide Blocked, PlanOf, ComputeBudget, AllShares, Due, Sendable, Planned, L.Numbered;
    ghost var rows, n := dash.db.rows, |dash.attempts|;
    var planned := dash.PlanPayout(cfg, world);
    PlannedSendable(dash.pending, cfg, world);
    LeavesNothingIs(rows, dash.db.nextId, dash.pending, life);
    var alive := dash.ExecutePayout(life, None);
    assert dash.db.rows == rows;
    planned := dash.PlanPayout(cfg, world);
    PlannedSendable(dash.pending, cfg, world);
    hide AfterAttempt;
    alive := dash.ExecutePayout(again, None);
    assert dash.attempts[n].sent && dash.attempts[n + 1].sent;
  }

  lemma {:induction false} PlannedSendable(pending: seq<Payment>, cfg: Config, world: World)
    requires Planned(pending, cfg, world) && pending != []
    ensures Sendable(pending)
  {
    hide ComputeBudget, TotalWeight, ShareOf, AllShares, SumOf, DistinctAddresses, IsValidDgbAddress;
    forall k | 0 <= k < |pending|
      ensures IsValidDgbAddress(pending[k].0)
    {
      assert pending[k] in pending;
    }
  }

  // What counts as paid.

  function WrittenSats(n: nat, pending: seq<Payment>, writes: seq<(int, bool)>): nat
    requires n <= |pending| && n <= |writes|
  {
    if n == 0 then 0
    else WrittenSats(n - 1, pending, writes) + if writes[n - 1].1 then PayoutSats(pending[n - 1].1) else 0
  }

  lemma {:induction false} PaidConcat(a: seq<L.Row>, b: seq<L.Row>)
    ensures L.PaidTotal(a + b) == L.PaidTotal(a) + L.PaidTotal(b)
  {
    if b == [] {
      assert a + b == a;
    } else {
      PaidConcat(a, b[..|b| - 1]);
      assert (a + b)[..|a + b| - 1] == a + b[..|b| - 1];
    }
  }

  lemma {:induction false} RowsPaid(n: nat, pending: seq<Payment>, writes: seq<(int, bool)>, txid: Option<string>,
                                    id: nat)
    requires n <= |pending| && n <= |writes|
    ensures L.PaidTotal(RowsOf(n, pending, writes, txid, id))
         == if txid.Some? then WrittenSats(n, pending, writes) else 0
  {
    hide PayoutSats;
    if n > 0 {
      RowsPaid(n - 1, pending, writes, txid, id);
      var rows := RowsOf(n - 1, pending, writes, txid, id);
      if writes[n - 1].1 {
        var r := L.Row(id + |rows|, pending[n - 1].0, PayoutSats(pending[n - 1].1), writes[n - 1].0, txid);
        assert (rows + [r])[..|rows|] == rows;
      } else {
        assert rows + [] == rows;
      }
    }
  }

  /** The paid total grows by what was recorded under a transaction id and by nothing
      else: no guard row and no payment of unknown outcome ever counts. */
  lemma {:induction false} PaidOnlyByTxid(rows: seq<L.Row>, nextId: nat, pending: seq<Payment>, life: Life)
    ensures var heard := Heard(pending, life);
            L.PaidTotal(AfterAttempt(rows, nextId, pending, life))
            == L.PaidTotal(rows)
               + if heard.Some? && heard.value.Txid?
                 then WrittenSats(Lived(pending, life.writes), pending, life.writes) else 0
  {
    hide RowsOf, Sendable, WrittenSats;
    var n := Lived(pending, life.writes);
    var id := if life.guardWritten then nextId + 1 else nextId;
    var guard := GuardRows(pending, life, nextId);
    var more := RowsHeard(pending, life, Heard(pending, life), id);
    assert L.PaidTotal(guard) == 0 by { assert guard[..0] == []; }
    assert L.PaidTotal([]) == 0;
    RowsPaid(n, pending, life.writes, None, id);
    match Heard(pending, life) {
      case Some(Txid(t)) => RowsPaid(n, pending, life.writes, Some(t), id);
      case _ =>
    }
    hide L.PaidTotal, GuardRows;
    PaidConcat(rows, guard);
    PaidConcat(rows + guard, more);
  }

  /** With every write made, that is exactly what was sent. */
  lemma {:induction false} AllWritten(pending: seq<Payment>, writes: seq<(int, bool)>, n: nat)
    requires n <= |pending| && n <= |writes| && forall k :: 0 <= k < n ==> writes[k].1
    ensures WrittenSats(n, pending, writes) == SumSats(pending[..n])
  {
    hide PayoutSats;
    if n > 0 {
      AllWritten(pending, writes, n - 1);
      assert pending[..n][..n - 1] == pending[..n - 1];
    }
  }
}
