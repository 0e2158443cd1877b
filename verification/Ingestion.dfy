/**
  The ingestion protocol of one tracked contract: poll windows with checkpoints, the atomic
  commit of events and cursor, gap skips, crashes and restarts at any point, backfills,
  confirmation, chain switches and rollbacks.
*/
module Ingestion {
  import opened Wrappers
  import opened EventStore

  const MAX_LEDGER_WINDOW := 17_000

  // ----------------------------------------------------------------- chain

  /** The decodable events of the contract on the canonical chain, up to the network's latest ledger. */
  datatype Chain = Chain(tip: nat, entries: seq<Entry>)

  /** An event identity occurs once on a chain. */
  ghost predicate ValidChain(c: Chain) {
    && (forall d, e :: d in c.entries && e in c.entries && d.id == e.id ==> d == e)
    && (forall e :: e in c.entries ==> e.id.ledger <= c.tip)
  }

  function Between(entries: seq<Entry>, lo: int, hi: int): seq<Entry> {
    if |entries| == 0 then []
    else
      var e, rest := entries[|entries| - 1], Between(entries[..|entries| - 1], lo, hi);
      if lo <= e.id.ledger <= hi then rest + [e] else rest
  }

  lemma {:induction false} BetweenMembers(entries: seq<Entry>, lo: int, hi: int)
    ensures forall e :: e in Between(entries, lo, hi) <==> e in entries && lo <= e.id.ledger <= hi
  {
    if |entries| > 0 {
      BetweenMembers(entries[..|entries| - 1], lo, hi);
      assert entries == entries[..|entries| - 1] + [entries[|entries| - 1]];
    }
  }

  lemma {:induction false} BetweenUnique(entries: seq<Entry>, lo: int, hi: int)
    requires Unique(entries)
    ensures Unique(Between(entries, lo, hi))
  {
    if |entries| > 0 {
      var e, rest := entries[|entries| - 1], entries[..|entries| - 1];
      BetweenUnique(rest, lo, hi);
      BetweenMembers(rest, lo, hi);
      var b := Between(rest, lo, hi);
      forall i | 0 <= i < |b| ensures !Conflicts(b[i], e) {
        assert b[i] in rest;
        var j :| 0 <= j < |rest| && rest[j] == b[i];
        assert entries[j] == rest[j];
      }
    }
  }

  // -------------------------------------------------------------- database

  datatype Status = Fetched | Applying | Committed

  datatype Checkpoint = Checkpoint(windowStart: nat, windowEnd: nat, status: Status, eventCount: nat)

  datatype Gap = Gap(from: nat, to: nat)

  /** Everything that survives a crash. */
  datatype Db = Db(cursor: nat, log: seq<Entry>, checkpoints: seq<Checkpoint>, gaps: set<Gap>, confirmed: set<Id>)

  function OpenCheckpoint(db: Db, start: nat, end: nat): Db {
    db.(checkpoints := db.checkpoints + [Checkpoint(start, end, Fetched, 0)])
  }

  function SetStatus(db: Db, cp: nat, status: Status): Db
    requires cp < |db.checkpoints|
  {
    db.(checkpoints := db.checkpoints[cp := db.checkpoints[cp].(status := status)])
  }

  /** The domain transaction: events, cursor and checkpoint status in one step. */
  function CommitWindow(db: Db, cp: nat, events: seq<Entry>): Db
    requires cp < |db.checkpoints|
  {
    var added := Fresh(db.log, events);
    db.(log := db.log + added,
        cursor := db.checkpoints[cp].windowEnd,
        checkpoints := db.checkpoints[cp := db.checkpoints[cp].(status := Committed, eventCount := |added|)])
  }

  /** `persistLedgerGap`: an upsert on the range, so recording a gap again changes nothing. */
  function PersistGap(db: Db, from: nat, to: nat): Db {
    db.(gaps := db.gaps + {Gap(from, to)})
  }

  /** The event part of `revertLedgers`. */
  function Revert(db: Db, safe: nat): Db {
    db.(log := Between(db.log, 0, safe), confirmed := set id | id in db.confirmed && id.ledger <= safe)
  }

  /** The events `promoteConfirmedEvents` confirms: all of them at depth 0, otherwise those deep enough. */
  predicate Promotes(tip: nat, depth: nat, e: Entry) {
    depth == 0 || (0 < tip - depth && e.id.ledger <= tip - depth)
  }

  function Promote(db: Db, tip: nat, depth: nat): Db {
    db.(confirmed := db.confirmed + set e | e in db.log && Promotes(tip, depth, e) :: e.id)
  }

  // --------------------------------------------------------------- machine

  /** Where the polling loop is; everything in it is lost by a crash. */
  datatype Pc =
    | Down
    | Idle
    | Skipping(to: nat)
    | Holding(start: nat, end: nat, events: seq<Entry>)
    | Opened(cp: nat, events: seq<Entry>)
    | InTransaction(cp: nat, events: seq<Entry>)
    | AfterCommit(end: nat)
    | Reverted(safe: nat)

  /**
    `agree` is the last ledger up to which the log is still a copy of the chain while a chain
    switch or a half-done rollback is pending; None when nothing is pending.  `maxTip` is the
    highest tip there has been.
  */
  datatype State = State(chain: Chain, db: Db, pc: Pc, agree: Option<nat>, maxTip: nat)

  datatype Config = Config(startLedger: nat, maxLedgersPerCycle: nat, confirmationDepth: nat)

  datatype Label =
    | Grow(chain: Chain)
    | Switch(chain: Chain, fork: nat)
    | BeginSkip | EndSkip
    | Fetch | Open | Mark | Commit | Finish
    | Abort | Crash | ResetOne(cp: nat) | Restart
    | Backfill(lo: nat, hi: nat)
    | PromoteTo(tip: nat)
    | RevertTo(safe: nat, lagging: bool) | ResetCursor

  ghost predicate Extends(c: Chain, d: Chain) {
    && ValidChain(d) && c.tip <= d.tip
    && forall e: Entry :: e.id.ledger <= c.tip ==> (e in c.entries <==> e in d.entries)
  }

  ghost predicate AgreeUpTo(c: Chain, d: Chain, fork: nat) {
    && ValidChain(d) && fork <= c.tip && fork <= d.tip
    && forall e: Entry :: e.id.ledger <= fork ==> (e in c.entries <==> e in d.entries)
  }

  function Min(a: nat, b: nat): nat { if a < b then a else b }

  function BatchEnd(cfg: Config, s: State): int {
    if s.chain.tip < s.db.cursor + cfg.maxLedgersPerCycle then s.chain.tip else s.db.cursor + cfg.maxLedgersPerCycle
  }

  /** The window end: the last event's ledger when there are events, the batch end otherwise. */
  function AdvanceTo(events: seq<Entry>, batchEnd: nat): nat {
    if |events| == 0 then batchEnd else MaxLedger(events)
  }

  function MaxLedger(events: seq<Entry>): (m: nat)
    requires |events| > 0
    ensures exists e :: e in events && e.id.ledger == m
    ensures forall e :: e in events ==> e.id.ledger <= m
  {
    if |events| == 1 then assert events == [events[0]]; events[0].id.ledger
    else
      assert events == [events[0]] + events[1..];
      var m := MaxLedger(events[1..]);
      if m < events[0].id.ledger then events[0].id.ledger else m
  }

  ghost predicate Next(cfg: Config, s: State, l: Label, t: State) {
    match l
    case Grow(c) => Extends(s.chain, c) && t == s.(chain := c, maxTip := if s.maxTip < c.tip then c.tip else s.maxTip)
    case Switch(c, fork) =>
      && AgreeUpTo(s.chain, c, fork)
      && t == s.(chain := c, maxTip := if s.maxTip < c.tip then c.tip else s.maxTip,
                 agree := Some(if s.agree.None? then fork else Min(s.agree.value, fork)))
    case BeginSkip =>
      var floor := s.chain.tip - MAX_LEDGER_WINDOW;
      && s.pc.Idle? && s.db.cursor + 1 < floor
      && t == s.(db := PersistGap(s.db, s.db.cursor + 1, floor - 1), pc := Skipping(floor - 1))
    case EndSkip => s.pc.Skipping? && t == s.(db := s.db.(cursor := s.pc.to), pc := Idle)
    case Fetch =>
      && s.pc.Idle? && s.db.cursor + 1 >= s.chain.tip - MAX_LEDGER_WINDOW
      && s.db.cursor < BatchEnd(cfg, s)
      && var events := Between(s.chain.entries, s.db.cursor + 1, BatchEnd(cfg, s));
         t == s.(pc := Holding(s.db.cursor + 1, AdvanceTo(events, BatchEnd(cfg, s)), events))
    case Open =>
      && s.pc.Holding?
      && t == s.(db := OpenCheckpoint(s.db, s.pc.start, s.pc.end), pc := Opened(|s.db.checkpoints|, s.pc.events))
    case Mark =>
      && s.pc.Opened? && s.pc.cp < |s.db.checkpoints|
      && t == s.(db := SetStatus(s.db, s.pc.cp, Applying), pc := InTransaction(s.pc.cp, s.pc.events))
    case Commit =>
      && s.pc.InTransaction? && s.pc.cp < |s.db.checkpoints|
      && t == s.(db := CommitWindow(s.db, s.pc.cp, s.pc.events), pc := AfterCommit(s.db.checkpoints[s.pc.cp].windowEnd))
    case Finish => s.pc.AfterCommit? && t == s.(db := s.db.(cursor := s.pc.end), pc := Idle)
    case Abort => !s.pc.Down? && t == s.(pc := Idle)
    case Crash => t == s.(pc := Down)
    case ResetOne(cp) =>
      && s.pc.Down? && cp < |s.db.checkpoints| && s.db.checkpoints[cp].status.Applying?
      && t == s.(db := SetStatus(s.db, cp, Fetched))
    case Restart =>
      && s.pc.Down? && (forall i :: 0 <= i < |s.db.checkpoints| ==> !s.db.checkpoints[i].status.Applying?)
      && t == s.(pc := Idle)
    case Backfill(lo, hi) =>
      && hi <= s.chain.tip
      && t == s.(db := s.db.(log := s.db.log + Fresh(s.db.log, Between(s.chain.entries, lo, hi))))
    case PromoteTo(tip) => tip <= s.maxTip && t == s.(db := Promote(s.db, tip, cfg.confirmationDepth))
    case RevertTo(safe, lagging) =>
      && s.pc.Idle? && safe <= s.db.cursor && safe <= s.chain.tip
      && (s.agree.Some? ==> safe <= s.agree.value)
      && var db := if lagging then PersistGap(s.db, safe + 1, s.db.cursor) else s.db;
         t == s.(db := Revert(db, safe), agree := Some(safe), pc := Reverted(safe))
    case ResetCursor =>
      && s.pc.Reverted?
      && t == s.(db := s.db.(cursor := s.pc.safe), pc := Idle,
                 agree := if s.agree == Some(s.pc.safe) && EndsBy(s.db.log, s.pc.safe) then None else s.agree)
  }

  predicate EndsBy(log: seq<Entry>, ledger: nat) {
    forall e :: e in log ==> e.id.ledger <= ledger
  }

  ghost predicate Initial(cfg: Config, s: State) {
    && ValidChain(s.chain) && s.maxTip == s.chain.tip && cfg.startLedger <= s.chain.tip
    && s.db == Db(cfg.startLedger, [], [], {}, {}) && s.pc.Idle? && s.agree.None?
  }

  // -------------------------------------------------------------- invariant

  predicate InGap(gaps: set<Gap>, ledger: nat) {
    exists g :: g in gaps && g.from <= ledger <= g.to
  }

  predicate Agrees(s: State, ledger: nat) { s.agree.None? || ledger <= s.agree.value }

  ghost predicate WindowHolds(s: State, start: nat, end: nat, events: seq<Entry>) {
    && start == s.db.cursor + 1 && start <= end <= s.maxTip
    && (s.agree.None? ==> end <= s.chain.tip)
    && (forall e :: e in events ==> start <= e.id.ledger <= end)
    && (forall e :: e in events && Agrees(s, e.id.ledger) ==> e in s.chain.entries)
    && (forall e :: e in s.chain.entries && start <= e.id.ledger <= end && Agrees(s, e.id.ledger) ==> e in events)
  }

  ghost predicate CheckpointHolds(s: State, cp: nat, status: Status, events: seq<Entry>) {
    && cp < |s.db.checkpoints| && s.db.checkpoints[cp].status == status
    && WindowHolds(s, s.db.checkpoints[cp].windowStart, s.db.checkpoints[cp].windowEnd, events)
  }

  ghost predicate PcHolds(s: State) {
    match s.pc
    case Down => true
    case Idle => true
    case Skipping(to) => Gap(s.db.cursor + 1, to) in s.db.gaps && s.db.cursor < to && (s.agree.None? ==> to <= s.chain.tip)
    case Holding(start, end, events) => WindowHolds(s, start, end, events)
    case Opened(cp, events) => CheckpointHolds(s, cp, Fetched, events)
    case InTransaction(cp, events) => CheckpointHolds(s, cp, Applying, events)
    case AfterCommit(end) => s.db.cursor == end
    case Reverted(safe) => safe <= s.db.cursor && s.agree.Some? && s.agree.value <= safe
  }

  /** An event the log answers for: after the start ledger, up to the cursor and outside the gaps. */
  predicate Covered(cfg: Config, s: State, ledger: nat) {
    cfg.startLedger < ledger <= s.db.cursor && Agrees(s, ledger) && !InGap(s.db.gaps, ledger)
  }

  /** The log is a copy of the chain, as far as the two agree. */
  ghost predicate LogHolds(cfg: Config, s: State) {
    && Unique(s.db.log)
    && (forall e :: e in s.db.log && Agrees(s, e.id.ledger) ==> e in s.chain.entries)
    && (forall e :: e in s.chain.entries && Covered(cfg, s, e.id.ledger) ==> Taken(s.db.log, e))
  }

  ghost predicate TipsHold(cfg: Config, s: State) {
    && s.chain.tip <= s.maxTip
    && (s.agree.None? ==> s.db.cursor <= s.chain.tip)
    && (s.agree.Some? ==> s.agree.value <= s.chain.tip)
    && (forall e :: e in s.db.log ==> e.id.ledger <= s.maxTip)
    && (forall id :: id in s.db.confirmed ==> id.ledger <= s.maxTip - cfg.confirmationDepth)
  }

  ghost predicate Inv(cfg: Config, s: State) {
    ValidChain(s.chain) && LogHolds(cfg, s) && PcHolds(s) && TipsHold(cfg, s)
  }

  // --------------------------------------------------- every step keeps it

  lemma {:induction false} TakenLater(log: seq<Entry>, more: seq<Entry>, e: Entry)
    requires Taken(log, e)
    ensures Taken(log + more, e)
  {
    var i :| 0 <= i < |log| && Conflicts(log[i], e);
    assert (log + more)[i] == log[i];
  }

  lemma {:induction false} TakenBelow(log: seq<Entry>, safe: nat, e: Entry)
    requires Taken(log, e) && e.id.ledger <= safe
    ensures Taken(Between(log, 0, safe), e)
  {
    var i :| 0 <= i < |log| && Conflicts(log[i], e);
    BetweenMembers(log, 0, safe);
    assert log[i] in Between(log, 0, safe);
    var j :| 0 <= j < |Between(log, 0, safe)| && Between(log, 0, safe)[j] == log[i];
  }

  /** A chain that only grew agrees with the log where it did before. */
  lemma {:induction false} GrowStep(cfg: Config, s: State, c: Chain, t: State)
    requires Inv(cfg, s) && Next(cfg, s, Grow(c), t)
    ensures Inv(cfg, t)
  {
    assert LogHolds(cfg, t) by {
      forall e | e in s.db.log && Agrees(s, e.id.ledger) ensures e in c.entries {}
      forall e | e in c.entries && Covered(cfg, t, e.id.ledger) ensures Taken(s.db.log, e) {
        assert Covered(cfg, s, e.id.ledger) && e in s.chain.entries;
      }
    }
    if s.pc.Holding? { WindowGrows(s, t, s.pc.start, s.pc.end, s.pc.events); }
    if s.pc.Opened? || s.pc.InTransaction? {
      WindowGrows(s, t, s.db.checkpoints[s.pc.cp].windowStart, s.db.checkpoints[s.pc.cp].windowEnd, s.pc.events);
    }
  }

  lemma {:induction false} WindowGrows(s: State, t: State, start: nat, end: nat, events: seq<Entry>)
    requires WindowHolds(s, start, end, events) && t.db.cursor == s.db.cursor && s.maxTip <= t.maxTip
    requires t.agree == s.agree && (s.agree.Some? ==> s.agree.value <= s.chain.tip) && Extends(s.chain, t.chain)
    ensures WindowHolds(t, start, end, events)
  {
  }

  lemma {:induction false} WindowForks(s: State, t: State, fork: nat, start: nat, end: nat, events: seq<Entry>)
    requires WindowHolds(s, start, end, events) && t.db.cursor == s.db.cursor && s.maxTip <= t.maxTip
    requires AgreeUpTo(s.chain, t.chain, fork) && t.agree == Some(if s.agree.None? then fork else Min(s.agree.value, fork))
    ensures WindowHolds(t, start, end, events)
  {
  }

  lemma {:induction false} SwitchStep(cfg: Config, s: State, c: Chain, fork: nat, t: State)
    requires Inv(cfg, s) && Next(cfg, s, Switch(c, fork), t)
    ensures Inv(cfg, t)
  {
    assert LogHolds(cfg, t) by {
      forall e | e in c.entries && Covered(cfg, t, e.id.ledger) ensures Taken(s.db.log, e) {
        assert Covered(cfg, s, e.id.ledger) && e in s.chain.entries;
      }
    }
    if s.pc.Holding? { WindowForks(s, t, fork, s.pc.start, s.pc.end, s.pc.events); }
    if s.pc.Opened? || s.pc.InTransaction? {
      WindowForks(s, t, fork, s.db.checkpoints[s.pc.cp].windowStart, s.db.checkpoints[s.pc.cp].windowEnd, s.pc.events);
    }
  }

  /** Inserting events that are on the chain. */
  lemma {:induction false} InsertStep(cfg: Config, s: State, events: seq<Entry>)
    requires LogHolds(cfg, s)
    requires forall e :: e in events && Agrees(s, e.id.ledger) ==> e in s.chain.entries
    ensures var log := s.db.log + Fresh(s.db.log, events);
            && LogHolds(cfg, s.(db := s.db.(log := log)))
            && (forall e :: e in events ==> Taken(log, e))
            && (forall e :: e in log ==> e in s.db.log || e in events)
  {
    FreshFits(s.db.log, events);
    forall e | Taken(s.db.log, e) ensures Taken(s.db.log + Fresh(s.db.log, events), e) {
      TakenLater(s.db.log, Fresh(s.db.log, events), e);
    }
  }

  lemma {:induction false} FewerCovered(cfg: Config, s: State, t: State)
    requires LogHolds(cfg, s) && s.db.gaps <= t.db.gaps && t.db.log == s.db.log
    requires t.chain == s.chain && t.agree == s.agree
    requires forall ledger: nat :: s.db.cursor < ledger <= t.db.cursor ==> InGap(t.db.gaps, ledger)
    ensures LogHolds(cfg, t)
  {
    forall ledger: nat | Covered(cfg, t, ledger) ensures Covered(cfg, s, ledger) {
      assert InGap(s.db.gaps, ledger) ==> InGap(t.db.gaps, ledger);
    }
  }

  lemma {:induction false} SkipStep(cfg: Config, s: State, l: Label, t: State)
    requires Inv(cfg, s) && Next(cfg, s, l, t) && (l.BeginSkip? || l.EndSkip?)
    ensures Inv(cfg, t)
  {
    if l.EndSkip? {
      forall ledger: nat | s.db.cursor < ledger <= t.db.cursor ensures InGap(t.db.gaps, ledger) {
        assert Gap(s.db.cursor + 1, s.pc.to) in t.db.gaps;
      }
    }
    FewerCovered(cfg, s, t);
  }

  lemma {:induction false} FetchStep(cfg: Config, s: State, t: State)
    requires Inv(cfg, s) && Next(cfg, s, Fetch, t)
    ensures Inv(cfg, t)
  {
    var events := Between(s.chain.entries, s.db.cursor + 1, BatchEnd(cfg, s));
    BetweenMembers(s.chain.entries, s.db.cursor + 1, BatchEnd(cfg, s));
    assert t.pc.end <= BatchEnd(cfg, s);
    forall e | e in s.chain.entries && t.pc.start <= e.id.ledger <= t.pc.end ensures e in events {}
  }

  lemma {:induction false} CheckpointStep(cfg: Config, s: State, l: Label, t: State)
    requires Inv(cfg, s) && Next(cfg, s, l, t) && (l.Open? || l.Mark? || l.ResetOne?)
    ensures Inv(cfg, t)
  {
    FewerCovered(cfg, s, t);
  }

  lemma {:induction false} ControlStep(cfg: Config, s: State, l: Label, t: State)
    requires Inv(cfg, s) && Next(cfg, s, l, t) && (l.Finish? || l.Abort? || l.Crash? || l.Restart?)
    ensures Inv(cfg, t)
  {
    FewerCovered(cfg, s, t);
  }

  lemma {:induction false} CommitStep(cfg: Config, s: State, t: State)
    requires Inv(cfg, s) && Next(cfg, s, Commit, t)
    ensures Inv(cfg, t)
  {
    InsertStep(cfg, s, s.pc.events);
    forall e | e in t.chain.entries && Covered(cfg, t, e.id.ledger) ensures Taken(t.db.log, e) {
      if e.id.ledger <= s.db.cursor {
        assert Covered(cfg, s, e.id.ledger);
        TakenLater(s.db.log, Fresh(s.db.log, s.pc.events), e);
      }
    }
  }

  lemma {:induction false} BackfillStep(cfg: Config, s: State, lo: nat, hi: nat, t: State)
    requires Inv(cfg, s) && Next(cfg, s, Backfill(lo, hi), t)
    ensures Inv(cfg, t)
  {
    BetweenMembers(s.chain.entries, lo, hi);
    InsertStep(cfg, s, Between(s.chain.entries, lo, hi));
    PcKept(s, t.db.log);
  }

  lemma {:induction false} PcKept(s: State, log: seq<Entry>)
    requires PcHolds(s)
    ensures PcHolds(s.(db := s.db.(log := log)))
  {
    var t := s.(db := s.db.(log := log));
    if s.pc.Holding? { assert WindowHolds(t, s.pc.start, s.pc.end, s.pc.events); }
    if s.pc.Opened? { assert CheckpointHolds(t, s.pc.cp, Fetched, s.pc.events); }
    if s.pc.InTransaction? { assert CheckpointHolds(t, s.pc.cp, Applying, s.pc.events); }
  }

  lemma {:induction false} PromoteStep(cfg: Config, s: State, tip: nat, t: State)
    requires Inv(cfg, s) && Next(cfg, s, PromoteTo(tip), t)
    ensures Inv(cfg, t)
  {
    FewerCovered(cfg, s, t);
    forall id | id in t.db.confirmed ensures id.ledger <= s.maxTip - cfg.confirmationDepth {
      if id !in s.db.confirmed {
        var e :| e in s.db.log && Promotes(tip, cfg.confirmationDepth, e) && e.id == id;
      }
    }
    assert PcHolds(t);
  }

  lemma {:induction false} RevertStep(cfg: Config, s: State, safe: nat, lagging: bool, t: State)
    requires Inv(cfg, s) && Next(cfg, s, RevertTo(safe, lagging), t)
    ensures Inv(cfg, t)
  {
    BetweenMembers(s.db.log, 0, safe);
    BetweenUnique(s.db.log, 0, safe);
    forall e | e in t.chain.entries && Covered(cfg, t, e.id.ledger) ensures Taken(t.db.log, e) {
      assert InGap(s.db.gaps, e.id.ledger) ==> InGap(t.db.gaps, e.id.ledger);
      assert Covered(cfg, s, e.id.ledger);
      TakenBelow(s.db.log, safe, e);
    }
  }

  lemma {:induction false} ResetStep(cfg: Config, s: State, t: State)
    requires Inv(cfg, s) && Next(cfg, s, ResetCursor, t)
    ensures Inv(cfg, t)
  {
    forall e | e in t.chain.entries && Covered(cfg, t, e.id.ledger) ensures Taken(t.db.log, e) {
      assert Covered(cfg, s, e.id.ledger);
    }
  }

  lemma {:induction false} EveryStep(cfg: Config, s: State, l: Label, t: State)
    requires Inv(cfg, s) && Next(cfg, s, l, t)
    ensures Inv(cfg, t)
  {
    match l
    case Grow(c) => GrowStep(cfg, s, c, t);
    case Switch(c, fork) => SwitchStep(cfg, s, c, fork, t);
    case BeginSkip => SkipStep(cfg, s, l, t);
    case EndSkip => SkipStep(cfg, s, l, t);
    case Fetch => FetchStep(cfg, s, t);
    case Commit => CommitStep(cfg, s, t);
    case Backfill(lo, hi) => BackfillStep(cfg, s, lo, hi, t);
    case PromoteTo(tip) => PromoteStep(cfg, s, tip, t);
    case RevertTo(safe, lagging) => RevertStep(cfg, s, safe, lagging, t);
    case ResetCursor => ResetStep(cfg, s, t);
    case Open => CheckpointStep(cfg, s, l, t);
    case Mark => CheckpointStep(cfg, s, l, t);
    case Finish => ControlStep(cfg, s, l, t);
    case Abort => ControlStep(cfg, s, l, t);
    case Crash => ControlStep(cfg, s, l, t);
    case ResetOne(_) => CheckpointStep(cfg, s, l, t);
    case Restart => ControlStep(cfg, s, l, t);
  }
}
