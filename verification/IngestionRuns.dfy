/** What holds in every state of every run of the ingestion protocol. */
module IngestionRuns {
  import opened Wrappers
  import opened EventStore
  import opened Ingestion

  ghost predicate Path(cfg: Config, states: seq<State>, labels: seq<Label>) {
    && |states| == |labels| + 1
    && forall i :: 0 <= i < |labels| ==> Next(cfg, states[i], labels[i], states[i + 1])
  }

  ghost predicate Run(cfg: Config, states: seq<State>, labels: seq<Label>) {
    Path(cfg, states, labels) && Initial(cfg, states[0])
  }

  lemma {:induction false} Reachable(cfg: Config, states: seq<State>, labels: seq<Label>, i: nat)
    requires Run(cfg, states, labels) && i < |states|
    ensures Inv(cfg, states[i])
  {
    if i > 0 {
      Reachable(cfg, states, labels, i - 1);
      EveryStep(cfg, states[i - 1], labels[i - 1], states[i]);
    }
  }

  // ------------------------------------------------------ the canonical log

  /** Chain events that compete for one row of the second unique index. */
  ghost predicate NoCoveredClash(cfg: Config, s: State) {
    forall d, e :: d in s.chain.entries && e in s.chain.entries && Covered(cfg, s, e.id.ledger) && SameSlot(d, e) ==> d == e
  }

  /**
    In every run, with no rollback pending, the log holds canonical events only, and it holds
    every canonical event up to the cursor outside the gaps if and only if no two of those
    events share listing, type and ledger.
  */
  lemma {:induction false} LogIsCanonical(cfg: Config, states: seq<State>, labels: seq<Label>, i: nat)
    requires Run(cfg, states, labels) && i < |states| && states[i].agree.None?
    ensures var s := states[i];
            && Unique(s.db.log)
            && (forall e :: e in s.db.log ==> e in s.chain.entries)
            && ((forall e :: e in s.chain.entries && Covered(cfg, s, e.id.ledger) ==> e in s.db.log)
                <==> NoCoveredClash(cfg, s))
  {
    Reachable(cfg, states, labels, i);
    CoveredExactly(cfg, states[i]);
  }

  lemma {:induction false} CoveredExactly(cfg: Config, s: State)
    requires Inv(cfg, s) && s.agree.None?
    ensures (forall e :: e in s.chain.entries && Covered(cfg, s, e.id.ledger) ==> e in s.db.log) <==> NoCoveredClash(cfg, s)
  {
    if forall e :: e in s.chain.entries && Covered(cfg, s, e.id.ledger) ==> e in s.db.log {
      forall d, e | d in s.chain.entries && e in s.chain.entries && Covered(cfg, s, e.id.ledger) && SameSlot(d, e)
        ensures d == e
      {
        BothStored(s.db.log, d, e);
      }
    }
    if NoCoveredClash(cfg, s) {
      forall e | e in s.chain.entries && Covered(cfg, s, e.id.ledger) ensures e in s.db.log {
        var k :| 0 <= k < |s.db.log| && Conflicts(s.db.log[k], e);
        assert s.db.log[k] in s.chain.entries;
      }
    }
  }

  /** Without backfills the log never runs ahead of the cursor. */
  ghost predicate NotAhead(s: State) {
    && EndsBy(s.db.log, s.db.cursor)
    && (s.pc.Reverted? ==> EndsBy(s.db.log, s.pc.safe))
  }

  lemma {:induction false} NotAheadStep(cfg: Config, s: State, l: Label, t: State)
    requires Inv(cfg, s) && NotAhead(s) && Next(cfg, s, l, t) && !l.Backfill?
    ensures NotAhead(t)
  {
    if l.Commit? {
      FreshFits(s.db.log, s.pc.events);
    }
    if l.RevertTo? {
      BetweenMembers(s.db.log, 0, l.safe);
    }
  }

  ghost predicate NoBackfill(labels: seq<Label>) {
    forall i :: 0 <= i < |labels| ==> !labels[i].Backfill?
  }

  lemma {:induction false} NeverAhead(cfg: Config, states: seq<State>, labels: seq<Label>, i: nat)
    requires Run(cfg, states, labels) && NoBackfill(labels) && i < |states|
    ensures NotAhead(states[i])
  {
    if i > 0 {
      NeverAhead(cfg, states, labels, i - 1);
      Reachable(cfg, states, labels, i - 1);
      NotAheadStep(cfg, states[i - 1], labels[i - 1], states[i]);
    }
  }

  /**
    Polls, gap skips, crashes, chain switches and rollbacks in any interleaving: with no rollback
    pending, the log after the start ledger and outside the gaps is the chain up to the cursor.
  */
  lemma {:induction false} LogIsChainPrefix(cfg: Config, states: seq<State>, labels: seq<Label>, i: nat, e: Entry)
    requires Run(cfg, states, labels) && NoBackfill(labels) && i < |states| && states[i].agree.None?
    requires NoCoveredClash(cfg, states[i])
    requires cfg.startLedger < e.id.ledger && !InGap(states[i].db.gaps, e.id.ledger)
    ensures e in states[i].db.log <==> e in states[i].chain.entries && e.id.ledger <= states[i].db.cursor
  {
    LogIsCanonical(cfg, states, labels, i);
    NeverAhead(cfg, states, labels, i);
  }

  // ------------------------------------------------------------ half a rollback

  /**
    The revert transaction and the cursor reset are two steps.  Between them the log still
    answers for everything up to the old cursor if and only if the chain has nothing after the
    safe ledger there.
  */
  lemma {:induction false} HalfRollback(cfg: Config, s: State, safe: nat)
    requires Inv(cfg, s) && s.agree.None? && safe <= s.db.cursor
    ensures (forall e :: e in s.chain.entries && Covered(cfg, s, e.id.ledger) ==> Taken(Revert(s.db, safe).log, e))
       <==> (forall e :: e in s.chain.entries && Covered(cfg, s, e.id.ledger) ==> e.id.ledger <= safe)
  {
    var log := Revert(s.db, safe).log;
    BetweenMembers(s.db.log, 0, safe);
    forall e | e in s.chain.entries && Covered(cfg, s, e.id.ledger) ensures Taken(log, e) <==> e.id.ledger <= safe {
      if e.id.ledger <= safe {
        TakenBelow(s.db.log, safe, e);
      }
      if Taken(log, e) {
        var k :| 0 <= k < |log| && Conflicts(log[k], e);
        assert log[k] in log;
      }
    }
  }

  /**
    A run in which the process crashes between the two steps and the chain then switches back: it
    ends with the old chain and the old cursor, and the log still answers for that cursor if and
    only if the chain has nothing after the safe ledger.
  */
  lemma {:induction false} CrashInRollback(cfg: Config, s: State, other: Chain, fork: nat, safe: nat)
    returns (states: seq<State>, labels: seq<Label>)
    requires Inv(cfg, s) && s.pc.Idle? && s.agree.None? && AgreeUpTo(s.chain, other, fork) && safe <= fork && safe <= s.db.cursor
    ensures Path(cfg, states, labels) && states[0] == s
    ensures labels == [Switch(other, fork), RevertTo(safe, false), Crash, Switch(s.chain, fork)]
    ensures states[4].chain == s.chain && states[4].db == Revert(s.db, safe)
    ensures (forall e :: e in s.chain.entries && Covered(cfg, s, e.id.ledger) ==> Taken(states[4].db.log, e))
       <==> (forall e :: e in s.chain.entries && Covered(cfg, s, e.id.ledger) ==> e.id.ledger <= safe)
  {
    states, labels := CrashRun(cfg, s, other, fork, safe);
    HalfRollback(cfg, s, safe);
  }

  lemma {:induction false} CrashRun(cfg: Config, s: State, other: Chain, fork: nat, safe: nat)
    returns (states: seq<State>, labels: seq<Label>)
    requires ValidChain(s.chain) && s.chain.tip <= s.maxTip && s.pc.Idle? && s.agree.None?
    requires AgreeUpTo(s.chain, other, fork)
    requires safe <= fork && safe <= s.db.cursor
    ensures Path(cfg, states, labels) && states[0] == s
    ensures labels == [Switch(other, fork), RevertTo(safe, false), Crash, Switch(s.chain, fork)]
    ensures states[4].chain == s.chain && states[4].db == Revert(s.db, safe)
  {
    var tip := if s.maxTip < other.tip then other.tip else s.maxTip;
    var switched := s.(chain := other, maxTip := tip, agree := Some(fork));
    var reverted := switched.(db := Revert(s.db, safe), agree := Some(safe), pc := Reverted(safe));
    var crashed := reverted.(pc := Down);
    var back := crashed.(chain := s.chain, agree := Some(Min(safe, fork)));
    states := [s, switched, reverted, crashed, back];
    labels := [Switch(other, fork), RevertTo(safe, false), Crash, Switch(s.chain, fork)];
    assert Next(cfg, s, labels[0], switched);
    assert Next(cfg, switched, labels[1], reverted);
    assert Next(cfg, reverted, labels[2], crashed);
    assert Next(cfg, crashed, labels[3], back);
  }

  // ---------------------------------------------------------- confirmations

  /**
    In every run a confirmed event lies at least the confirmation depth below the highest tip
    seen, so a rollback no deeper than that deletes provisional events only.
  */
  lemma {:induction false} ConfirmedSurvive(cfg: Config, states: seq<State>, labels: seq<Label>, i: nat, safe: nat)
    requires Run(cfg, states, labels) && i < |states|
    requires states[i].maxTip - cfg.confirmationDepth <= safe
    ensures var db := states[i].db;
            && (forall id :: id in db.confirmed ==> id.ledger <= states[i].maxTip - cfg.confirmationDepth)
            && Revert(db, safe).confirmed == db.confirmed
            && (forall e :: e in db.log && e !in Revert(db, safe).log ==> e.id !in db.confirmed)
  {
    Reachable(cfg, states, labels, i);
    BetweenMembers(states[i].db.log, 0, safe);
  }

  /** A ledger is deep enough below a tip to be confirmed. */
  predicate DeepEnough(cfg: Config, tip: nat, ledger: nat) {
    cfg.confirmationDepth == 0 || (cfg.confirmationDepth < tip && ledger + cfg.confirmationDepth <= tip)
  }

  /** An event is promoted at position `i` of a run. */
  ghost predicate PromotedAt(cfg: Config, states: seq<State>, labels: seq<Label>, i: int, id: Id) {
    && 0 <= i < |labels| && i < |states| && labels[i].PromoteTo? && DeepEnough(cfg, labels[i].tip, id.ledger)
    && exists e :: e in states[i].db.log && e.id == id
  }

  /** A promotion confirms every logged event that lies the depth below its tip, for as long as it stays in the log. */
  lemma {:induction false} PromotedIsConfirmed(cfg: Config, states: seq<State>, labels: seq<Label>, i: nat, j: nat, e: Entry)
    requires Run(cfg, states, labels) && i < j < |states| && labels[i].PromoteTo?
    requires DeepEnough(cfg, labels[i].tip, e.id.ledger)
    requires forall k :: i <= k <= j ==> e in states[k].db.log
    ensures e.id in states[j].db.confirmed
  {
    assert Next(cfg, states[j - 1], labels[j - 1], states[j]);
    if j == i + 1 {
      assert e in states[i].db.log;
    } else {
      PromotedIsConfirmed(cfg, states, labels, i, j - 1, e);
      ConfirmedKept(cfg, states[j - 1], labels[j - 1], states[j], e);
    }
  }

  lemma {:induction false} ConfirmedKept(cfg: Config, s: State, l: Label, t: State, e: Entry)
    requires Next(cfg, s, l, t) && e in t.db.log && e.id in s.db.confirmed
    ensures e.id in t.db.confirmed
  {
    if l.RevertTo? { BetweenMembers(s.db.log, 0, l.safe); }
  }

  /** Nothing else confirms an event: a confirmed one was promoted at some point of the run. */
  lemma {:induction false} ConfirmedWasPromoted(cfg: Config, states: seq<State>, labels: seq<Label>, j: nat, id: Id)
    requires Run(cfg, states, labels) && j < |states| && id in states[j].db.confirmed
    ensures exists i :: PromotedAt(cfg, states, labels, i, id) && i < j
  {
    if j > 0 {
      assert Next(cfg, states[j - 1], labels[j - 1], states[j]);
      if id in states[j - 1].db.confirmed {
        ConfirmedWasPromoted(cfg, states, labels, j - 1, id);
      } else {
        assert PromotedAt(cfg, states, labels, j - 1, id);
      }
    }
  }

  // ------------------------------------------- tiling on a chain that only grows

  predicate Done(c: Checkpoint) { c.status.Committed? }

  predicate InWindow(checkpoints: seq<Checkpoint>, ledger: nat) {
    exists i :: 0 <= i < |checkpoints| && Done(checkpoints[i]) && checkpoints[i].windowStart <= ledger <= checkpoints[i].windowEnd
  }

  predicate Apart(from: nat, to: nat, c: Checkpoint) { to < c.windowStart || c.windowEnd < from }

  /** Committed windows lie between the start ledger and the cursor and do not overlap. */
  ghost predicate WindowsTile(cfg: Config, db: Db) {
    && (forall i :: 0 <= i < |db.checkpoints| && Done(db.checkpoints[i]) ==>
          cfg.startLedger < db.checkpoints[i].windowStart <= db.checkpoints[i].windowEnd <= db.cursor)
    && (forall i, j :: 0 <= i < j < |db.checkpoints| && Done(db.checkpoints[i]) && Done(db.checkpoints[j]) ==>
          Apart(db.checkpoints[i].windowStart, db.checkpoints[i].windowEnd, db.checkpoints[j]))
  }

  /** A gap is behind the cursor, or starts right at it and is out of the RPC's reach. */
  predicate GapPlaced(s: State, g: Gap) {
    || g.to <= s.db.cursor
    || (g.from == s.db.cursor + 1 && g.to < s.chain.tip - MAX_LEDGER_WINDOW)
  }

  ghost predicate GapsTile(cfg: Config, s: State) {
    && (forall g :: g in s.db.gaps ==> cfg.startLedger < g.from && GapPlaced(s, g))
    && (forall g, i :: g in s.db.gaps && 0 <= i < |s.db.checkpoints| && Done(s.db.checkpoints[i]) ==>
          Apart(g.from, g.to, s.db.checkpoints[i]))
    && (s.pc.Skipping? ==> forall g :: g in s.db.gaps ==> g.to <= s.pc.to)
    && (s.pc.Holding? || s.pc.Opened? || s.pc.InTransaction? ==> forall g :: g in s.db.gaps ==> g.to <= s.db.cursor)
  }

  ghost predicate AllCovered(cfg: Config, db: Db) {
    && cfg.startLedger <= db.cursor
    && forall ledger: nat :: cfg.startLedger < ledger <= db.cursor ==> InWindow(db.checkpoints, ledger) || InGap(db.gaps, ledger)
  }

  ghost predicate Tiled(cfg: Config, s: State) {
    s.agree.None? && !s.pc.Reverted? && WindowsTile(cfg, s.db) && GapsTile(cfg, s) && AllCovered(cfg, s.db)
  }

  predicate NoFork(l: Label) { !l.Switch? && !l.RevertTo? && !l.ResetCursor? }

  /** A step that changes no committed window, no gap and not the cursor. */
  lemma {:induction false} SameTiles(cfg: Config, db: Db, db': Db)
    requires db'.cursor == db.cursor && |db.checkpoints| <= |db'.checkpoints| && db.gaps <= db'.gaps
    requires WindowsTile(cfg, db) && AllCovered(cfg, db)
    requires forall i :: 0 <= i < |db.checkpoints| && Done(db.checkpoints[i]) ==> db'.checkpoints[i] == db.checkpoints[i]
    requires forall i :: 0 <= i < |db'.checkpoints| && Done(db'.checkpoints[i]) ==> i < |db.checkpoints| && Done(db.checkpoints[i])
    ensures WindowsTile(cfg, db') && AllCovered(cfg, db')
  {
    forall ledger: nat | cfg.startLedger < ledger <= db.cursor
      ensures InWindow(db'.checkpoints, ledger) || InGap(db'.gaps, ledger)
    {
      if InWindow(db.checkpoints, ledger) {
        var i :| && 0 <= i < |db.checkpoints| && Done(db.checkpoints[i])
                 && db.checkpoints[i].windowStart <= ledger <= db.checkpoints[i].windowEnd;
        assert Done(db'.checkpoints[i]);
      }
    }
  }

  lemma {:induction false} TiledQuiet(cfg: Config, s: State, l: Label, t: State)
    requires Inv(cfg, s) && Tiled(cfg, s) && Next(cfg, s, l, t)
    requires l.Grow? || l.Finish? || l.Abort? || l.Crash? || l.Restart? || l.Backfill? || l.PromoteTo? || l.Fetch?
    ensures Tiled(cfg, t)
  {
    SameTiles(cfg, s.db, t.db);
    assert forall g :: g in s.db.gaps ==> GapPlaced(s, g) && (l.Fetch? ==> g.to <= s.db.cursor);
  }

  lemma {:induction false} TiledCheckpoint(cfg: Config, s: State, l: Label, t: State)
    requires Inv(cfg, s) && Tiled(cfg, s) && Next(cfg, s, l, t) && (l.Open? || l.Mark? || l.ResetOne?)
    ensures Tiled(cfg, t)
  {
    SameTiles(cfg, s.db, t.db);
  }

  lemma {:induction false} TiledBeginSkip(cfg: Config, s: State, t: State)
    requires Inv(cfg, s) && Tiled(cfg, s) && Next(cfg, s, BeginSkip, t)
    ensures Tiled(cfg, t)
  {
    SameTiles(cfg, s.db, t.db);
  }

  lemma {:induction false} TiledEndSkip(cfg: Config, s: State, t: State)
    requires Inv(cfg, s) && Tiled(cfg, s) && Next(cfg, s, EndSkip, t)
    ensures Tiled(cfg, t)
  {
    forall ledger: nat | cfg.startLedger < ledger <= t.db.cursor
      ensures InWindow(t.db.checkpoints, ledger) || InGap(t.db.gaps, ledger)
    {
      if s.db.cursor < ledger { assert Gap(s.db.cursor + 1, s.pc.to) in t.db.gaps; }
    }
  }

  lemma {:induction false} TiledCommit(cfg: Config, s: State, t: State)
    requires Inv(cfg, s) && Tiled(cfg, s) && Next(cfg, s, Commit, t)
    ensures Tiled(cfg, t)
  {
    var cp := s.pc.cp;
    forall i | 0 <= i < |t.db.checkpoints| && i != cp ensures t.db.checkpoints[i] == s.db.checkpoints[i] {}
    forall ledger: nat | cfg.startLedger < ledger <= t.db.cursor
      ensures InWindow(t.db.checkpoints, ledger) || InGap(t.db.gaps, ledger)
    {
      if s.db.cursor < ledger {
        assert Done(t.db.checkpoints[cp]);
      } else if InWindow(s.db.checkpoints, ledger) {
        var i :| 0 <= i < |s.db.checkpoints| && Done(s.db.checkpoints[i])
                 && s.db.checkpoints[i].windowStart <= ledger <= s.db.checkpoints[i].windowEnd;
        assert i != cp && Done(t.db.checkpoints[i]);
      }
    }
  }

  lemma {:induction false} TiledStep(cfg: Config, s: State, l: Label, t: State)
    requires Inv(cfg, s) && Tiled(cfg, s) && Next(cfg, s, l, t) && NoFork(l)
    ensures Tiled(cfg, t)
  {
    match l
    case BeginSkip => TiledBeginSkip(cfg, s, t);
    case EndSkip => TiledEndSkip(cfg, s, t);
    case Commit => TiledCommit(cfg, s, t);
    case Open => TiledCheckpoint(cfg, s, l, t);
    case Mark => TiledCheckpoint(cfg, s, l, t);
    case ResetOne(_) => TiledCheckpoint(cfg, s, l, t);
    case Grow(_) => TiledQuiet(cfg, s, l, t);
    case Finish => TiledQuiet(cfg, s, l, t);
    case Abort => TiledQuiet(cfg, s, l, t);
    case Crash => TiledQuiet(cfg, s, l, t);
    case Restart => TiledQuiet(cfg, s, l, t);
    case Backfill(_, _) => TiledQuiet(cfg, s, l, t);
    case PromoteTo(_) => TiledQuiet(cfg, s, l, t);
    case Fetch => TiledQuiet(cfg, s, l, t);
  }

  ghost predicate NoForks(labels: seq<Label>) {
    forall i :: 0 <= i < |labels| ==> NoFork(labels[i])
  }

  /**
    Without chain switches, in every run with crashes at any step and restarts: every ledger
    after the start ledger up to the cursor is in exactly one committed window or in a recorded
    gap, never in both.
  */
  lemma {:induction false} AlwaysTiled(cfg: Config, states: seq<State>, labels: seq<Label>, i: nat)
    requires Run(cfg, states, labels) && NoForks(labels) && i < |states|
    ensures Tiled(cfg, states[i])
  {
    if i > 0 {
      AlwaysTiled(cfg, states, labels, i - 1);
      Reachable(cfg, states, labels, i - 1);
      TiledStep(cfg, states[i - 1], labels[i - 1], states[i]);
    }
  }

  /** Each event of a committed window is in the log at exactly one position. */
  lemma {:induction false} CommittedLoggedOnce(cfg: Config, states: seq<State>, labels: seq<Label>, i: nat, cp: nat,
                                               e: Entry)
    requires Run(cfg, states, labels) && NoForks(labels) && i < |states| && NoCoveredClash(cfg, states[i])
    requires cp < |states[i].db.checkpoints| && Done(states[i].db.checkpoints[cp]) && e in states[i].chain.entries
    requires states[i].db.checkpoints[cp].windowStart <= e.id.ledger <= states[i].db.checkpoints[cp].windowEnd
    ensures exists k :: 0 <= k < |states[i].db.log| && states[i].db.log[k] == e
                        && forall j :: 0 <= j < |states[i].db.log| && states[i].db.log[j] == e ==> j == k
  {
    var s := states[i];
    AlwaysTiled(cfg, states, labels, i);
    Reachable(cfg, states, labels, i);
    assert !InGap(s.db.gaps, e.id.ledger);
    assert Covered(cfg, s, e.id.ledger);
    CoveredExactly(cfg, s);
    var k :| 0 <= k < |s.db.log| && s.db.log[k] == e;
    assert SameId(e, e);
    forall j | 0 <= j < |s.db.log| && s.db.log[j] == e ensures j == k {
      assert j != k ==> Conflicts(s.db.log[j], s.db.log[k]);
    }
  }
}
