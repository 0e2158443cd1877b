/**
  The polling loop in its imperative form: the tables of one tracked contract, updated in place,
  and one iteration of the loop as a path of the ingestion protocol.
*/
module Polling {
  import opened Wrappers
  import opened EventStore
  import opened Ingestion
  import opened IngestionRuns

  // ------------------------------------------------------------ one iteration

  /** The part of an iteration before the fetch: the skip past ledgers the RPC no longer serves. */
  function AfterSkip(db: Db, tip: nat): Db {
    var floor := tip - MAX_LEDGER_WINDOW;
    if db.cursor + 1 < floor then PersistGap(db, db.cursor + 1, floor - 1).(cursor := floor - 1) else db
  }

  /** The checkpointed window after the cursor. */
  function AfterWindow(cfg: Config, db: Db, chain: Chain): Db {
    var batchEnd := if chain.tip < db.cursor + cfg.maxLedgersPerCycle then chain.tip else db.cursor + cfg.maxLedgersPerCycle;
    var events := Between(chain.entries, db.cursor + 1, batchEnd);
    if batchEnd <= db.cursor then db
    else
      var cp := |db.checkpoints|;
      CommitWindow(SetStatus(OpenCheckpoint(db, db.cursor + 1, AdvanceTo(events, batchEnd)), cp, Applying), cp, events)
  }

  function AfterPoll(cfg: Config, db: Db, chain: Chain): Db {
    if 0 < db.cursor && chain.tip < db.cursor
    then Revert(PersistGap(db, chain.tip + 1, db.cursor), chain.tip).(cursor := chain.tip)
    else AfterWindow(cfg, AfterSkip(db, chain.tip), chain)
  }

  /** Where `t` can be reached from `s` by steps of the protocol. */
  ghost predicate Reaches(cfg: Config, s: State, t: State) {
    exists states, labels :: Path(cfg, states, labels) && states[0] == s && states[|labels|] == t
  }

  lemma {:induction false} ReachesStep(cfg: Config, s: State, l: Label, t: State)
    requires Next(cfg, s, l, t)
    ensures Reaches(cfg, s, t)
  {
    assert Path(cfg, [s, t], [l]) && [s, t][|[l]|] == t;
  }

  lemma {:induction false} ReachesStays(cfg: Config, s: State)
    ensures Reaches(cfg, s, s)
  {
    var labels: seq<Label> := [];
    assert Path(cfg, [s], labels) && [s][|labels|] == s;
  }

  lemma {:induction false} ReachesOn(cfg: Config, s: State, t: State, l: Label, u: State)
    requires Reaches(cfg, s, t) && Next(cfg, t, l, u)
    ensures Reaches(cfg, s, u)
  {
    var states, labels :| Path(cfg, states, labels) && states[0] == s && states[|labels|] == t;
    var states', labels' := states + [u], labels + [l];
    forall i | 0 <= i < |labels'| ensures Next(cfg, states'[i], labels'[i], states'[i + 1]) {
      if i < |labels| { assert Next(cfg, states[i], labels[i], states[i + 1]); }
    }
    assert Path(cfg, states', labels') && states'[|labels'|] == u;
  }

  lemma {:induction false} SkipReaches(cfg: Config, s: State)
    requires s.pc.Idle?
    ensures Reaches(cfg, s, s.(db := AfterSkip(s.db, s.chain.tip)))
  {
    var floor := s.chain.tip - MAX_LEDGER_WINDOW;
    if s.db.cursor + 1 < floor {
      var mid := s.(db := PersistGap(s.db, s.db.cursor + 1, floor - 1), pc := Skipping(floor - 1));
      ReachesStep(cfg, s, BeginSkip, mid);
      ReachesOn(cfg, s, mid, EndSkip, s.(db := AfterSkip(s.db, s.chain.tip)));
    } else {
      ReachesStays(cfg, s);
    }
  }

  lemma {:induction false} OpenReaches(cfg: Config, s: State, m: State, events: seq<Entry>, end: nat)
    requires Reaches(cfg, s, m) && m.pc.Idle? && m.chain.tip - MAX_LEDGER_WINDOW <= m.db.cursor + 1
    requires m.db.cursor < BatchEnd(cfg, m) && events == Between(m.chain.entries, m.db.cursor + 1, BatchEnd(cfg, m))
    requires end == AdvanceTo(events, BatchEnd(cfg, m))
    ensures Reaches(cfg, s, m.(db := OpenCheckpoint(m.db, m.db.cursor + 1, end), pc := Opened(|m.db.checkpoints|, events)))
  {
    var held := m.(pc := Holding(m.db.cursor + 1, end, events));
    ReachesOn(cfg, s, m, Fetch, held);
    ReachesOn(cfg, s, held, Open, m.(db := OpenCheckpoint(m.db, m.db.cursor + 1, end), pc := Opened(|m.db.checkpoints|, events)));
  }

  lemma {:induction false} CommitReaches(cfg: Config, s: State, m: State, cp: nat, events: seq<Entry>, t: State)
    requires m.pc == Opened(cp, events) && cp < |m.db.checkpoints| && Reaches(cfg, s, m)
    requires t == m.(db := CommitWindow(SetStatus(m.db, cp, Applying), cp, events), pc := Idle)
    ensures Reaches(cfg, s, t)
  {
    var marked := m.(db := SetStatus(m.db, cp, Applying), pc := InTransaction(cp, events));
    var end := m.db.checkpoints[cp].windowEnd;
    var done := m.(db := CommitWindow(marked.db, cp, events), pc := AfterCommit(end));
    ReachesOn(cfg, s, m, Mark, marked);
    ReachesOn(cfg, s, marked, Commit, done);
    ReachesOn(cfg, s, done, Finish, t);
  }

  lemma {:induction false} WindowIs(cfg: Config, m: State, events: seq<Entry>, end: nat)
    requires m.db.cursor < BatchEnd(cfg, m) && events == Between(m.chain.entries, m.db.cursor + 1, BatchEnd(cfg, m))
    requires end == AdvanceTo(events, BatchEnd(cfg, m))
    ensures var begun, cp := OpenCheckpoint(m.db, m.db.cursor + 1, end), |m.db.checkpoints|;
            AfterWindow(cfg, m.db, m.chain) == CommitWindow(SetStatus(begun, cp, Applying), cp, events)
  {
  }

  lemma {:induction false} WindowReaches(cfg: Config, s: State, m: State, t: State)
    requires Reaches(cfg, s, m) && m.pc.Idle? && m.chain.tip - MAX_LEDGER_WINDOW <= m.db.cursor + 1
    requires m.db.cursor < BatchEnd(cfg, m) && t == m.(db := AfterWindow(cfg, m.db, m.chain))
    ensures Reaches(cfg, s, t)
  {
    var events := Between(m.chain.entries, m.db.cursor + 1, BatchEnd(cfg, m));
    var end := AdvanceTo(events, BatchEnd(cfg, m));
    WindowIs(cfg, m, events, end);
    var begun := m.(db := OpenCheckpoint(m.db, m.db.cursor + 1, end), pc := Opened(|m.db.checkpoints|, events));
    OpenReaches(cfg, s, m, events, end);
    CommitReaches(cfg, s, begun, |m.db.checkpoints|, events, t);
  }

  /** A whole iteration on a chain ahead of the cursor is a path of the protocol back to the top of the loop. */
  lemma {:induction false} PollIsPath(cfg: Config, s: State)
    requires s.pc.Idle? && s.db.cursor <= s.chain.tip
    ensures Reaches(cfg, s, s.(db := AfterPoll(cfg, s.db, s.chain)))
  {
    SkipReaches(cfg, s);
    var m := s.(db := AfterSkip(s.db, s.chain.tip));
    if m.db.cursor < BatchEnd(cfg, m) { WindowReaches(cfg, s, m, s.(db := AfterPoll(cfg, s.db, s.chain))); }
  }

  /** The same for an iteration that finds the chain shorter than the cursor and otherwise unchanged. */
  lemma {:induction false} LagIsPath(cfg: Config, s: State)
    requires s.pc.Idle? && s.chain.tip < s.db.cursor && (s.agree.Some? ==> s.chain.tip <= s.agree.value)
    ensures Reaches(cfg, s, s.(db := AfterPoll(cfg, s.db, s.chain), agree := None))
  {
    var safe := s.chain.tip;
    var db := Revert(PersistGap(s.db, safe + 1, s.db.cursor), safe);
    var mid := s.(db := db, agree := Some(safe), pc := Reverted(safe));
    var end := s.(db := AfterPoll(cfg, s.db, s.chain), agree := None);
    BetweenMembers(s.db.log, 0, safe);
    assert EndsBy(db.log, safe);
    assert Next(cfg, mid, ResetCursor, end);
    ReachesStep(cfg, s, RevertTo(safe, true), mid);
    ReachesOn(cfg, s, mid, ResetCursor, end);
  }

  /** An iteration on a chain with something left to read moves the cursor. */
  lemma {:induction false} PollProgress(cfg: Config, db: Db, chain: Chain)
    requires 0 < cfg.maxLedgersPerCycle && db.cursor < chain.tip
    ensures db.cursor < AfterPoll(cfg, db, chain).cursor <= chain.tip
  {
    var skipped := AfterSkip(db, chain.tip);
    var batchEnd := if chain.tip < skipped.cursor + cfg.maxLedgersPerCycle then chain.tip else skipped.cursor + cfg.maxLedgersPerCycle;
    BetweenMembers(chain.entries, skipped.cursor + 1, batchEnd);
  }

  /** The last ledger before the window: the cursor, or the last ledger out of the RPC's reach. */
  function WindowAfter(db: Db, tip: nat): nat { if db.cursor + 1 < tip - 17_000 then tip - 17_001 else db.cursor }

  function WindowUpTo(cfg: Config, db: Db, tip: nat): nat {
    var after := WindowAfter(db, tip);
    if tip < after + cfg.maxLedgersPerCycle then tip else after + cfg.maxLedgersPerCycle
  }

  /**
    What an iteration reads: the next window of at most the configured size, from the cursor or from
    where the RPC's reach begins, with a gap for what is skipped.  The cursor goes to the latest event
    of the window, or to its end when there is none.
  */
  lemma {:induction false} PollReads(cfg: Config, db: Db, chain: Chain, after: nat, upTo: nat, events: seq<Entry>,
                                     end: nat)
    requires 0 < cfg.maxLedgersPerCycle && db.cursor < chain.tip
    requires after == WindowAfter(db, chain.tip) && upTo == WindowUpTo(cfg, db, chain.tip)
    requires events == Between(chain.entries, after + 1, upTo)
    requires end == if events == [] then upTo else MaxLedger(events)
    ensures AfterPoll(cfg, db, chain) ==
            db.(log := db.log + Fresh(db.log, events), cursor := end,
                gaps := if after == db.cursor then db.gaps else db.gaps + {Gap(db.cursor + 1, after)},
                checkpoints := db.checkpoints + [Checkpoint(after + 1, end, Committed, |Fresh(db.log, events)|)])
  {
    SkipExactly(db, chain.tip, after);
    EndExactly(events, upTo, end);
    WindowReads(cfg, AfterSkip(db, chain.tip), chain, upTo, events, end);
    PollIsWindow(cfg, db, chain);
  }

  lemma {:induction false} SkipExactly(db: Db, tip: nat, after: nat)
    requires after == WindowAfter(db, tip)
    ensures AfterSkip(db, tip) ==
            db.(cursor := after, gaps := if after == db.cursor then db.gaps else db.gaps + {Gap(db.cursor + 1, after)})
  {
  }

  lemma {:induction false} EndExactly(events: seq<Entry>, upTo: nat, end: nat)
    requires end == if events == [] then upTo else MaxLedger(events)
    ensures end == AdvanceTo(events, upTo)
  {
  }

  lemma {:induction false} PollIsWindow(cfg: Config, db: Db, chain: Chain)
    requires db.cursor <= chain.tip
    ensures AfterPoll(cfg, db, chain) == AfterWindow(cfg, AfterSkip(db, chain.tip), chain)
  {
  }

  lemma {:induction false} WindowReads(cfg: Config, db: Db, chain: Chain, upTo: nat, events: seq<Entry>, end: nat)
    requires upTo == if chain.tip < db.cursor + cfg.maxLedgersPerCycle then chain.tip else db.cursor + cfg.maxLedgersPerCycle
    requires db.cursor < upTo && events == Between(chain.entries, db.cursor + 1, upTo) && end == AdvanceTo(events, upTo)
    ensures AfterWindow(cfg, db, chain) ==
            db.(log := db.log + Fresh(db.log, events), cursor := end,
                checkpoints := db.checkpoints + [Checkpoint(db.cursor + 1, end, Committed, |Fresh(db.log, events)|)])
  {
    WindowCommitted(db, events, end);
  }

  /** A window that is opened, marked and committed. */
  lemma {:induction false} WindowCommitted(db: Db, events: seq<Entry>, end: nat)
    ensures var cp := |db.checkpoints|;
            CommitWindow(SetStatus(OpenCheckpoint(db, db.cursor + 1, end), cp, Applying), cp, events) ==
            db.(log := db.log + Fresh(db.log, events), cursor := end,
                checkpoints := db.checkpoints + [Checkpoint(db.cursor + 1, end, Committed, |Fresh(db.log, events)|)])
  {
    CheckpointWritten(db.checkpoints, Checkpoint(db.cursor + 1, end, Fetched, 0),
                      Checkpoint(db.cursor + 1, end, Applying, 0),
                      Checkpoint(db.cursor + 1, end, Committed, |Fresh(db.log, events)|));
  }

  lemma {:induction false} CheckpointWritten(cs: seq<Checkpoint>, a: Checkpoint, b: Checkpoint, c: Checkpoint)
    ensures (cs + [a])[|cs| := b] == cs + [b] && (cs + [b])[|cs| := c] == cs + [c]
  {
  }

  /** On a chain that fell behind the cursor: the lost ledgers become a gap and everything past the tip goes. */
  lemma {:induction false} PollLags(cfg: Config, db: Db, chain: Chain)
    requires chain.tip < db.cursor
    ensures var t := AfterPoll(cfg, db, chain);
            && t.cursor == chain.tip && t.gaps == db.gaps + {Gap(chain.tip + 1, db.cursor)}
            && t.checkpoints == db.checkpoints
            && (forall e :: e in t.log <==> e in db.log && e.id.ledger <= chain.tip)
            && (forall id :: id in t.confirmed <==> id in db.confirmed && id.ledger <= chain.tip)
  {
    BetweenMembers(db.log, 0, chain.tip);
  }

  // ---------------------------------------------------------------- the tables

  class ContractStore {
    const table: EventTable
    var cursor: nat
    var checkpoints: seq<Checkpoint>
    var gaps: set<Gap>
    var confirmed: set<Id>

    ghost function Contents(): Db
      reads this, table
    {
      Db(cursor, table.log, checkpoints, gaps, confirmed)
    }

    constructor (startLedger: nat)
      ensures Contents() == Db(startLedger, [], [], {}, {}) && fresh(table)
    {
      table := new EventTable();
      cursor, checkpoints, gaps, confirmed := startLedger, [], {}, {};
    }

    method Open(windowStart: nat, windowEnd: nat) returns (cp: nat)
      modifies this
      ensures cp == |old(checkpoints)| && Contents() == OpenCheckpoint(old(Contents()), windowStart, windowEnd)
    {
      cp := |checkpoints|;
      checkpoints := checkpoints + [Checkpoint(windowStart, windowEnd, Fetched, 0)];
    }

    method MarkApplying(cp: nat)
      requires cp < |checkpoints|
      modifies this
      ensures Contents() == SetStatus(old(Contents()), cp, Applying)
    {
      checkpoints := checkpoints[cp := checkpoints[cp].(status := Applying)];
    }

    /** The body of the domain transaction. */
    method Commit(cp: nat, events: seq<Entry>) returns (inserted: seq<Entry>)
      requires cp < |checkpoints|
      modifies this, table
      ensures inserted == Fresh(old(table.log), events)
      ensures Contents() == CommitWindow(old(Contents()), cp, events)
    {
      var skipped;
      inserted, skipped := table.UpsertEvents(events);
      cursor := checkpoints[cp].windowEnd;
      checkpoints := checkpoints[cp := checkpoints[cp].(status := Committed, eventCount := |inserted|)];
    }

    method RecordGap(from: nat, to: nat)
      modifies this
      ensures Contents() == PersistGap(old(Contents()), from, to)
    {
      if Gap(from, to) !in gaps { gaps := gaps + {Gap(from, to)}; }
    }

    method RevertLedgers(safe: nat)
      modifies this, table
      ensures Contents() == Revert(old(Contents()), safe)
      ensures forall e :: e in table.log <==> e in old(table.log) && e.id.ledger <= safe
      ensures forall id :: id in confirmed <==> id in old(confirmed) && id.ledger <= safe
    {
      BetweenMembers(table.log, 0, safe);
      table.log := Between(table.log, 0, safe);
      confirmed := set id | id in confirmed && id.ledger <= safe;
    }

    /** Confirms what is deep enough and returns how many events were newly confirmed. */
    method PromoteConfirmed(tip: nat, depth: nat) returns (count: nat)
      modifies this
      ensures Contents() == Promote(old(Contents()), tip, depth)
      ensures old(confirmed) <= confirmed && |confirmed| == |old(confirmed)| + count
      ensures forall e :: e in table.log ==>
                (e.id in confirmed <==>
                 e.id in old(confirmed) || depth == 0 || (depth < tip && e.id.ledger + depth <= tip))
    {
      PromoteExactly(Contents(), tip, depth);
      count := 0;
      if 0 < depth && tip - depth <= 0 {
        assert Promote(Contents(), tip, depth).confirmed == confirmed;
        return;
      }
      var promoted := (set e | e in table.log && (depth == 0 || e.id.ledger <= tip - depth) :: e.id) - confirmed;
      assert Promote(Contents(), tip, depth).confirmed == confirmed + promoted;
      count := |promoted|;
      confirmed := confirmed + promoted;
    }

    /** Startup recovery: no checkpoint is left in the applying state and no other is touched. */
    method Recover() returns (stale: nat)
      modifies this`checkpoints
      ensures |checkpoints| == |old(checkpoints)|
      ensures forall i :: 0 <= i < |checkpoints| && old(checkpoints)[i].status.Applying? ==>
                            checkpoints[i] == old(checkpoints)[i].(status := Fetched)
      ensures forall i :: 0 <= i < |checkpoints| && !old(checkpoints)[i].status.Applying? ==>
                            checkpoints[i] == old(checkpoints)[i]
      ensures stale == |Unfinished(old(checkpoints))|
    {
      stale := 0;
      var before := checkpoints;
      for k := 0 to |checkpoints|
        invariant |checkpoints| == |before| && stale == CountOpen(before[..k])
        invariant forall i :: 0 <= i < |before| ==> checkpoints[i] == if i < k then Reset(before[i]) else before[i]
      {
        assert before[..k + 1][..k] == before[..k];
        if !checkpoints[k].status.Committed? { stale := stale + 1; }
        if checkpoints[k].status.Applying? {
          checkpoints := checkpoints[k := checkpoints[k].(status := Fetched)];
        }
      }
      assert before[..|before|] == before;
      CountOpenIs(before);
    }

    method SkipGap(tip: nat)
      modifies this
      ensures Contents() == AfterSkip(old(Contents()), tip)
    {
      var floor := tip - MAX_LEDGER_WINDOW;
      if cursor + 1 < floor {
        RecordGap(cursor + 1, floor - 1);
        cursor := floor - 1;
      }
    }

    /** The checkpoint protocol for one fetched window. */
    method ApplyWindow(end: nat, events: seq<Entry>)
      modifies this, table
      ensures var cp := |old(checkpoints)|;
              Contents() == CommitWindow(SetStatus(OpenCheckpoint(old(Contents()), old(cursor) + 1, end), cp, Applying), cp, events)
    {
      var cp := Open(cursor + 1, end);
      MarkApplying(cp);
      var inserted := Commit(cp, events);
      cursor := end;
    }

    /** One iteration of the loop, the hash check aside. */
    method PollOnce(cfg: Config, chain: Chain)
      requires 0 < cfg.maxLedgersPerCycle
      modifies this, table
      ensures Contents() == AfterPoll(cfg, old(Contents()), chain)
    {
      if 0 < cursor && chain.tip < cursor {
        RecordGap(chain.tip + 1, cursor);
        RevertLedgers(chain.tip);
        cursor := chain.tip;
        return;
      }
      var lastLedger := cursor;
      SkipGap(chain.tip);
      PollWindow(cfg, chain, lastLedger);
    }

    method PollWindow(cfg: Config, chain: Chain, lastLedger: nat)
      requires 0 < cfg.maxLedgersPerCycle && lastLedger <= cursor <= chain.tip && (lastLedger == cursor || cursor < chain.tip)
      modifies this, table
      ensures Contents() == AfterWindow(cfg, old(Contents()), chain)
    {
      var start := cursor + 1;
      var batchEnd := if chain.tip < start + cfg.maxLedgersPerCycle - 1 then chain.tip else start + cfg.maxLedgersPerCycle - 1;
      var events := Between(chain.entries, start, batchEnd);
      NoneBetween(chain.entries, start, batchEnd);
      if |events| > 0 || lastLedger < batchEnd {
        ApplyWindow(AdvanceTo(events, batchEnd), events);
      }
    }
  }

  lemma {:induction false} PromoteExactly(db: Db, tip: nat, depth: nat)
    ensures forall e :: e in db.log ==>
              (e.id in Promote(db, tip, depth).confirmed <==>
               e.id in db.confirmed || depth == 0 || (depth < tip && e.id.ledger + depth <= tip))
  {
  }

  lemma {:induction false} NoneBetween(entries: seq<Entry>, lo: int, hi: int)
    ensures hi < lo ==> Between(entries, lo, hi) == []
  {
    BetweenMembers(entries, lo, hi);
    if |Between(entries, lo, hi)| > 0 { assert Between(entries, lo, hi)[0] in Between(entries, lo, hi); }
  }

  function Reset(c: Checkpoint): Checkpoint {
    if c.status.Applying? then c.(status := Fetched) else c
  }

  function CountOpen(cs: seq<Checkpoint>): nat {
    if |cs| == 0 then 0 else CountOpen(cs[..|cs| - 1]) + if cs[|cs| - 1].status.Committed? then 0 else 1
  }

  /** The positions of the checkpoints that are not committed. */
  function Unfinished(cs: seq<Checkpoint>): set<int> {
    set i | 0 <= i < |cs| && !cs[i].status.Committed?
  }

  lemma {:induction false} UnfinishedSnoc(front: seq<Checkpoint>, c: Checkpoint)
    ensures Unfinished(front + [c]) == Unfinished(front) + (if c.status.Committed? then {} else {|front|})
    ensures |front| !in Unfinished(front)
  {
    forall i ensures i in Unfinished(front + [c]) <==> i in Unfinished(front) || (!c.status.Committed? && i == |front|) {
      if 0 <= i < |front| { assert (front + [c])[i] == front[i]; }
    }
  }

  lemma {:induction false} CountOpenIs(cs: seq<Checkpoint>)
    ensures CountOpen(cs) == |Unfinished(cs)|
  {
    if |cs| > 0 {
      var front, c := cs[..|cs| - 1], cs[|cs| - 1];
      CountOpenIs(front);
      UnfinishedSnoc(front, c);
      assert front + [c] == cs;
    } else {
      assert Unfinished(cs) == {};
    }
  }

  // --------------------------------------------------------------- safe point

  const MAX_REORG_DEPTH := 100

  function Floor(divergedAt: nat): nat {
    if divergedAt < MAX_REORG_DEPTH then 0 else divergedAt - MAX_REORG_DEPTH
  }

  /** The highest accessible ledger below the divergence, within the walk's depth. */
  ghost predicate IsSafePoint(divergedAt: nat, accessible: set<nat>, r: nat) {
    && (r == Floor(divergedAt) || (Floor(divergedAt) < r < divergedAt && r in accessible))
    && (forall c :: c in accessible && 0 < c < divergedAt && Floor(divergedAt) <= c ==> c <= r)
  }

  method FindReorgSafePoint(divergedAt: nat, accessible: set<nat>) returns (r: nat)
    ensures IsSafePoint(divergedAt, accessible, r)
  {
    for depth := 1 to MAX_REORG_DEPTH + 1
      invariant forall c :: c in accessible && 0 < c < divergedAt && divergedAt - depth < c ==> false
    {
      var candidate := divergedAt - depth;
      if candidate <= 0 { return 0; }
      if candidate in accessible { return candidate; }
    }
    r := Floor(divergedAt);
  }

  /**
    The walk compares no hashes, so its answer lies on the common prefix if and only if every
    ledger it could reach above the fork is inaccessible.
  */
  lemma {:induction false} SafePointOnPrefix(divergedAt: nat, accessible: set<nat>, r: nat, fork: nat)
    requires IsSafePoint(divergedAt, accessible, r) && 0 < divergedAt
    ensures r <= fork <==> Floor(divergedAt) <= fork &&
                           forall c :: fork < c < divergedAt && Floor(divergedAt) <= c ==> c !in accessible
  {
    if fork < r && r != Floor(divergedAt) { assert r in accessible; }
  }
}
